/** What the page does as it scrolls: the header gets the `scrolled` class past
    100 pixels, and the scroll-to-top button is shown past 300 pixels. The
    offset `window.pageYOffset` is a parameter. */
module ScrollRules {
  import opened Dom
  import opened Timers

  const HeaderThreshold: real := 100.0
  const ButtonThreshold: real := 300.0
  const Scrolled := "scrolled"

  /** The header's classes after `handleScroll` at offset `y`. */
  function HeaderClasses(classes: set<string>, y: real): (r: set<string>)
    ensures Scrolled in r <==> y > HeaderThreshold
    ensures r - {Scrolled} == classes - {Scrolled}
  {
    if y > HeaderThreshold then classes + {Scrolled} else classes - {Scrolled}
  }

  /** The button's inline style after the scroll listener runs at offset `y`. */
  function ButtonStyle(style: map<string, string>, y: real): (r: map<string, string>)
    ensures "opacity" in r && "visibility" in r
    ensures r["opacity"] == (if y > ButtonThreshold then "1" else "0")
    ensures r["visibility"] == (if y > ButtonThreshold then "visible" else "hidden")
    ensures forall p :: p in style && p != "opacity" && p != "visibility" ==> p in r && r[p] == style[p]
  {
    if y > ButtonThreshold then style["opacity" := "1"]["visibility" := "visible"]
    else style["opacity" := "0"]["visibility" := "hidden"]
  }

  /** When both scroll rules run at the same offset and the scroll-to-top button
      is visible, the header is in its scrolled state. */
  lemma ButtonImpliesScrolledHeader(classes: set<string>, style: map<string, string>, y: real)
    requires ButtonStyle(style, y)["visibility"] == "visible"
    ensures Scrolled in HeaderClasses(classes, y)
  {
  }

  /** Scrolling further down never takes the `scrolled` class away. */
  lemma HeaderMonotone(classes: set<string>, y1: real, y2: real)
    requires y1 <= y2 && Scrolled in HeaderClasses(classes, y1)
    ensures Scrolled in HeaderClasses(classes, y2)
  {
  }

  /** `handleScroll` at the same offset twice is the same as once. */
  lemma HeaderIdempotent(classes: set<string>, y: real)
    ensures HeaderClasses(HeaderClasses(classes, y), y) == HeaderClasses(classes, y)
  {
    var once := HeaderClasses(classes, y);
    var twice := HeaderClasses(once, y);
    assert twice - {Scrolled} == once - {Scrolled};
    assert Scrolled in twice <==> Scrolled in once;
    if Scrolled in once {
      assert twice == (once - {Scrolled}) + {Scrolled};
      assert once == (once - {Scrolled}) + {Scrolled};
    } else {
      assert twice == once - {Scrolled};
    }
  }

  /** The header classes after `handleScroll` ran once for each offset in `ys`, in order. */
  function HeaderAfter(classes: set<string>, ys: seq<real>): set<string>
    decreases |ys|
  {
    if ys == [] then classes else HeaderAfter(HeaderClasses(classes, ys[0]), ys[1..])
  }

  /** Only the last offset that reached `handleScroll` decides the header. */
  lemma {:induction false} HeaderFollowsLastRun(classes: set<string>, ys: seq<real>)
    requires ys != []
    ensures Scrolled in HeaderAfter(classes, ys) <==> ys[|ys| - 1] > HeaderThreshold
    ensures HeaderAfter(classes, ys) - {Scrolled} == classes - {Scrolled}
    decreases |ys|
  {
    if |ys| > 1 {
      HeaderFollowsLastRun(HeaderClasses(classes, ys[0]), ys[1..]);
    }
  }

  /** The scroll listener runs `handleScroll` through `throttle`, which drops the
      calls made while its flag is set and has no trailing call. Two scroll events
      within one throttle window, at 150 and then at 50 pixels, leave the header
      scrolled although the page is back above the threshold. */
  lemma ThrottledHeaderCanLag()
    ensures var es := [Invoke(150.0), Invoke(50.0)];
      var s := ThrottleRun(ThrottleState(false, []), es);
      && es[|es| - 1].args <= HeaderThreshold
      && Scrolled in HeaderAfter({}, s.ran)
  {
    var es := [Invoke(150.0), Invoke(50.0)];
    var s0 := ThrottleState(false, []);
    var s1 := ThrottleStep(s0, es[0]);
    assert s1 == ThrottleState(true, [150.0]);
    assert ThrottleRun(s0, es) == ThrottleRun(s1, es[1..]);
    assert ThrottleRun(s1, es[1..]) == s1;
    HeaderFollowsLastRun({}, [150.0]);
  }

  /** The scroll-to-top listener is not throttled but `handleScroll` is, so the
      two can see different offsets. Scroll events at 50 and then 350 pixels
      within one throttle window show the button while the header stays
      unscrolled. */
  lemma ButtonCanOutrunHeader(style: map<string, string>)
    ensures var es := [Invoke(50.0), Invoke(350.0)];
      var s := ThrottleRun(ThrottleState(false, []), es);
      && ButtonStyle(style, es[|es| - 1].args)["visibility"] == "visible"
      && Scrolled !in HeaderAfter({}, s.ran)
  {
    var es := [Invoke(50.0), Invoke(350.0)];
    var s0 := ThrottleState(false, []);
    var s1 := ThrottleStep(s0, es[0]);
    assert s1 == ThrottleState(true, [50.0]);
    assert ThrottleRun(s0, es) == ThrottleRun(s1, es[1..]);
    assert ThrottleRun(s1, es[1..]) == s1;
    HeaderFollowsLastRun({}, [50.0]);
  }

  /** `handleScroll`: the header part of it, on the `.header` element. */
  method HandleScroll(header: Element, y: real)
    modifies header
    ensures header.classList == HeaderClasses(old(header.classList), y)
    ensures header.textContent == old(header.textContent) && header.style == old(header.style)
  {
    if y > HeaderThreshold {
      header.AddClass(Scrolled);
    } else {
      header.RemoveClass(Scrolled);
    }
  }

  /** The scroll listener of the scroll-to-top button. */
  method ShowScrollTopButton(button: Element, y: real)
    modifies button
    ensures button.style == ButtonStyle(old(button.style), y)
    ensures button.classList == old(button.classList) && button.textContent == old(button.textContent)
  {
    if y > ButtonThreshold {
      button.SetStyle("opacity", "1");
      button.SetStyle("visibility", "visible");
    } else {
      button.SetStyle("opacity", "0");
      button.SetStyle("visibility", "hidden");
    }
  }
}
