/** The small part of the DOM that the site's scripts touch: an element's class
    list, its text content and its inline style properties. */
module Dom {

  /** A UTF-16 code unit. JavaScript strings, and so `textContent`, are
      sequences of these: `length` counts them and `charAt` returns one. */
  newtype CodeUnit = x: int | 0 <= x < 0x1_0000

  type DomString = seq<CodeUnit>

  /** The UTF-16 encoding of one character: one code unit in the Basic
      Multilingual Plane, a surrogate pair above it. */
  function Utf16Char(c: char): (r: DomString)
    ensures |r| == (if c as int < 0x1_0000 then 1 else 2)
    ensures |r| == 1 ==> r[0] as int == c as int
    ensures |r| == 2 ==> 0xD800 <= r[0] as int < 0xDC00 <= r[1] as int < 0xE000
  {
    var v := c as int;
    if v < 0x1_0000 then [v as CodeUnit]
    else [(0xD800 + (v - 0x1_0000) / 0x400) as CodeUnit, (0xDC00 + (v - 0x1_0000) % 0x400) as CodeUnit]
  }

  /** The JavaScript string holding the characters `s`. */
  function Utf16(s: string): (r: DomString)
    ensures |s| <= |r| <= 2 * |s|
  {
    if s == [] then [] else Utf16Char(s[0]) + Utf16(s[1..])
  }

  /** Without characters above the Basic Multilingual Plane, a string's
      `length` is its number of characters. */
  lemma {:induction false} Utf16LengthInBmp(s: string)
    requires forall k :: 0 <= k < |s| ==> s[k] as int < 0x1_0000
    ensures |Utf16(s)| == |s|
  {
    if s != [] {
      Utf16LengthInBmp(s[1..]);
    }
  }

  /** `classList.toggle(c)`: `c` is removed when present and added when absent;
      no other class changes. */
  function Toggled(classes: set<string>, c: string): (r: set<string>)
    ensures c in r <==> c !in classes
    ensures r - {c} == classes - {c}
  {
    if c in classes then classes - {c} else classes + {c}
  }

  /** Toggling the same class twice restores the class list. */
  lemma ToggledTwice(classes: set<string>, c: string)
    ensures Toggled(Toggled(classes, c), c) == classes
  {
    var once := Toggled(classes, c);
    var twice := Toggled(once, c);
    assert twice - {c} == classes - {c};
    assert c in twice <==> c in classes;
    if c in classes {
      assert twice == (classes - {c}) + {c};
    } else {
      assert twice == classes - {c};
    }
  }

  class Element {
    var classList: set<string>
    var textContent: DomString
    var style: map<string, string>

    constructor (classes: set<string>)
      ensures classList == classes && textContent == [] && style == map[]
    {
      classList := classes;
      textContent := [];
      style := map[];
    }

    /** `classList.add(c)`. */
    method AddClass(c: string)
      modifies this
      ensures classList == old(classList) + {c}
      ensures textContent == old(textContent) && style == old(style)
    {
      classList := classList + {c};
    }

    /** `classList.remove(c)`. */
    method RemoveClass(c: string)
      modifies this
      ensures classList == old(classList) - {c}
      ensures textContent == old(textContent) && style == old(style)
    {
      classList := classList - {c};
    }

    /** `classList.toggle(c)`. */
    method ToggleClass(c: string)
      modifies this
      ensures classList == Toggled(old(classList), c)
      ensures textContent == old(textContent) && style == old(style)
    {
      classList := Toggled(classList, c);
    }

    /** Assignment to `style[property]`. */
    method SetStyle(property: string, value: string)
      modifies this
      ensures style == old(style)[property := value]
      ensures classList == old(classList) && textContent == old(textContent)
    {
      style := style[property := value];
    }
  }
}
