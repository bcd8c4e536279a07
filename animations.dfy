/** Two effects from the animation script: revealing an element when it scrolls
    into view, and the typewriter effect on the hero text. */
module Animations {
  import opened Dom

  const ScrollReveal := "scroll-reveal"
  const Revealed := "revealed"

  /** The class rule of `animateElement`: an element marked `scroll-reveal` gets
      `revealed`; nothing else about its classes changes. */
  function RevealClasses(classes: set<string>): (r: set<string>)
    ensures Revealed in r <==> (Revealed in classes || ScrollReveal in classes)
    ensures r - {Revealed} == classes - {Revealed}
    ensures classes <= r
  {
    if ScrollReveal in classes then classes + {Revealed} else classes
  }

  /** An element seen twice by the observer ends as after the first time. */
  lemma RevealIdempotent(classes: set<string>)
    ensures RevealClasses(RevealClasses(classes)) == RevealClasses(classes)
  {
  }

  /** `animateElement`, the reveal part: called when the element intersects the viewport. */
  method AnimateElement(element: Element)
    modifies element
    ensures element.classList == RevealClasses(old(element.classList))
    ensures element.textContent == old(element.textContent) && element.style == old(element.style)
  {
    if ScrollReveal in element.classList {
      element.AddClass(Revealed);
    }
  }

  function Min(a: nat, b: nat): nat {
    if a <= b then a else b
  }

  /** The text shown after `n` firings of the typing interval: one more code
      unit (`charAt`) per firing, up to the whole text (`length` code units). */
  function Typed(text: DomString, n: nat): (r: DomString)
    ensures |r| == Min(n, |text|) && r <= text
  {
    text[..Min(n, |text|)]
  }

  /** Each firing before the end adds exactly the next code unit. */
  lemma TypedStep(text: DomString, n: nat)
    requires n < |text|
    ensures Typed(text, n + 1) == Typed(text, n) + [text[n]]
  {
    assert text[..n + 1] == text[..n] + [text[n]];
  }

  /** A character above the Basic Multilingual Plane takes two firings: after
      the first, the element holds a lone high surrogate. */
  lemma AstralCharTakesTwoFirings()
    ensures var t := Utf16("\U{1F600}");
      && |t| == 2
      && Typed(t, 1) == [0xD83D]
      && Typed(t, 2) == t == [0xD83D, 0xDE00]
  {
    var c := '\U{1F600}';
    assert "\U{1F600}"[1..] == [];
    assert Utf16("\U{1F600}") == Utf16Char(c);
  }

  /** `TypingAnimation`: the interval created by `typeText`, with its counter `i`
      and whether it is still running. */
  class TypingAnimation {
    const element: Element
    const text: DomString
    const speed: nat
    var i: nat
    var ticking: bool

    /** While nobody else writes to the element, it shows the first `i`
        characters, and the interval stops only once the whole text is shown. */
    predicate Valid()
      reads this, element
    {
      && i <= |text|
      && element.textContent == text[..i]
      && (!ticking ==> i == |text|)
    }

    /** `new TypingAnimation(element, text, speed)`: `init` empties the element
        and `typeText` starts the interval with `i = 0`. */
    constructor (element: Element, text: DomString, speed: nat)
      modifies element
      ensures this.element == element && this.text == text && this.speed == speed
      ensures i == 0 && ticking
      ensures element.textContent == [] && element.classList == old(element.classList)
      ensures element.style == old(element.style)
      ensures Valid()
    {
      this.element := element;
      this.text := text;
      this.speed := speed;
      i := 0;
      ticking := true;
      new;
      element.textContent := [];
    }

    /** One firing of the interval callback. */
    method Tick()
      modifies this, element
      ensures old(i) < |text| ==>
        && element.textContent == old(element.textContent) + [text[old(i)]]
        && i == old(i) + 1 && ticking == old(ticking)
      ensures old(i) >= |text| ==>
        && element.textContent == old(element.textContent) && i == old(i) && !ticking
      ensures element.classList == old(element.classList) && element.style == old(element.style)
      ensures old(Valid()) ==> Valid()
    {
      if i < |text| {
        element.textContent := element.textContent + [text[i]];
        i := i + 1;
        if old(Valid()) {
          assert text[..i] == text[..i - 1] + [text[i - 1]];
        }
      } else {
        ticking := false;
      }
    }

    /** `n` firings of the interval: the element shows the first `n` characters
        (the whole text once `n` reaches its length), and the interval has been
        cleared exactly when it fired more often than the text has characters. */
    method Elapse(n: nat)
      requires Valid() && i == 0 && ticking
      modifies this, element
      ensures Valid()
      ensures element.textContent == Typed(text, n)
      ensures ticking <==> n <= |text|
    {
      var k := 0;
      while k < n
        invariant k <= n && Valid()
        invariant i == Min(k, |text|)
        invariant ticking <==> k <= |text|
      {
        Tick();
        k := k + 1;
      }
    }
  }
}
