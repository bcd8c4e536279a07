/** Character classes and the two string clean-ups the form validator uses:
    `String.prototype.trim` and `replace(/\s/g, '')`. */
module Text {

  /** The ECMAScript WhiteSpace and LineTerminator code points: the set that the
      regular-expression class `\s` matches and that `trim` removes. */
  predicate IsSpace(c: char) {
    || c == '\t' || c == '\n' || c == '\U{000B}' || c == '\U{000C}' || c == '\r'
    || c == ' ' || c == '\U{00A0}' || c == '\U{1680}'
    || ('\U{2000}' <= c <= '\U{200A}')
    || c == '\U{2028}' || c == '\U{2029}' || c == '\U{202F}' || c == '\U{205F}'
    || c == '\U{3000}' || c == '\U{FEFF}'
  }

  /** The regular-expression class `\d`: ASCII digits only. */
  predicate IsDigit(c: char) {
    '0' <= c <= '9'
  }

  predicate AllSpace(s: string) {
    forall k :: 0 <= k < |s| ==> IsSpace(s[k])
  }

  predicate NoSpace(s: string) {
    forall k :: 0 <= k < |s| ==> !IsSpace(s[k])
  }

  /** Drops leading whitespace; what is dropped is all whitespace and what is
      kept starts with a non-space character. */
  function TrimStart(s: string): (r: string)
    ensures |r| <= |s| && r == s[|s| - |r|..]
    ensures r == [] || !IsSpace(r[0])
  {
    if s == [] || !IsSpace(s[0]) then s else TrimStart(s[1..])
  }

  lemma {:induction false} TrimStartDropsSpace(s: string)
    ensures AllSpace(s[..Lead(s)])
  {
    if s != [] && IsSpace(s[0]) {
      TrimStartDropsSpace(s[1..]);
      var n := |s| - |TrimStart(s)|;
      assert s[..n] == [s[0]] + s[1..][..n - 1];
    }
  }

  /** Drops trailing whitespace; what is dropped is all whitespace and what is
      kept ends with a non-space character. */
  function TrimEnd(s: string): (r: string)
    ensures |r| <= |s| && r == s[..|r|]
    ensures r == [] || !IsSpace(r[|r| - 1])
  {
    if s == [] || !IsSpace(s[|s| - 1]) then s else TrimEnd(s[..|s| - 1])
  }

  lemma {:induction false} TrimEndDropsSpace(s: string)
    ensures AllSpace(s[|TrimEnd(s)|..])
  {
    if s != [] && IsSpace(s[|s| - 1]) {
      var n := |s| - 1;
      TrimEndDropsSpace(s[..n]);
      var m := |TrimEnd(s)|;
      assert s[m..] == s[..n][m..] + [s[n]];
    }
  }

  /** `String.prototype.trim`: the result is a slice of `s` that neither starts
      nor ends with whitespace, and everything cut away on either side is whitespace. */
  function Trim(s: string): (r: string)
    ensures |r| <= |s|
    ensures r == [] || (!IsSpace(r[0]) && !IsSpace(r[|r| - 1]))
  {
    TrimEnd(TrimStart(s))
  }

  /** A prefix `r` of the suffix `t` of `s` is a slice of `s`, and whitespace
      after `r` in `t` is whitespace after it in `s`. */
  lemma SliceOfSuffix(s: string, t: string, r: string, lead: nat)
    requires lead <= |s| && t == s[lead..] && |r| <= |t| && r == t[..|r|]
    requires AllSpace(t[|r|..])
    ensures lead + |r| <= |s| && r == s[lead..lead + |r|]
    ensures AllSpace(s[lead + |r|..])
  {
    var m := |r|;
    forall k | 0 <= k < m ensures r[k] == s[lead + k] {
      assert r[k] == t[k];
    }
    var tail := s[lead + m..];
    forall k | 0 <= k < |tail| ensures IsSpace(tail[k]) {
      assert tail[k] == t[m..][k];
    }
  }

  /** The number of whitespace characters `trim` removes from the front. */
  function Lead(s: string): nat {
    |s| - |TrimStart(s)|
  }

  /** Trimming keeps a contiguous slice of the value and cuts away only
      whitespace on either side of it. */
  lemma {:induction false} TrimCutsOnlySpace(s: string)
    ensures Lead(s) + |Trim(s)| <= |s|
    ensures Trim(s) == s[Lead(s)..Lead(s) + |Trim(s)|]
    ensures AllSpace(s[..Lead(s)])
    ensures AllSpace(s[Lead(s) + |Trim(s)|..])
  {
    var t := TrimStart(s);
    TrimStartDropsSpace(s);
    TrimEndDropsSpace(t);
    SliceOfSuffix(s, t, TrimEnd(t), |s| - |t|);
  }

  /** A value is blank when trimming leaves nothing, which is exactly when every
      character is whitespace. */
  lemma BlankIffAllSpace(s: string)
    ensures Trim(s) == [] <==> AllSpace(s)
  {
    var lead := Lead(s);
    TrimCutsOnlySpace(s);
    if Trim(s) == [] {
      assert s == s[..lead];
    } else {
      var r := Trim(s);
      assert r[0] == s[lead];
    }
  }

  /** `s.replace(/\s/g, '')`: removes every whitespace character and keeps the
      others in order. */
  function StripSpaces(s: string): (r: string)
    ensures |r| <= |s|
    ensures NoSpace(r)
  {
    if s == [] then []
    else if IsSpace(s[0]) then StripSpaces(s[1..])
    else [s[0]] + StripSpaces(s[1..])
  }

  /** Stripping distributes over concatenation: each character is kept or
      dropped on its own. */
  lemma {:induction false} StripSpacesConcat(a: string, b: string)
    ensures StripSpaces(a + b) == StripSpaces(a) + StripSpaces(b)
  {
    if a == [] {
      assert a + b == b;
    } else {
      assert (a + b)[1..] == a[1..] + b;
      StripSpacesConcat(a[1..], b);
    }
  }

  /** A value without whitespace is left as it is. */
  lemma {:induction false} StripSpacesKeepsClean(s: string)
    requires NoSpace(s)
    ensures StripSpaces(s) == s
  {
    if s != [] {
      StripSpacesKeepsClean(s[1..]);
    }
  }

  /** Stripping leaves nothing exactly when the value is all whitespace. */
  lemma {:induction false} StripSpacesEmptyIffAllSpace(s: string)
    ensures StripSpaces(s) == [] <==> AllSpace(s)
  {
    if s != [] {
      StripSpacesEmptyIffAllSpace(s[1..]);
      if AllSpace(s) {
        assert AllSpace(s[1..]);
      }
    }
  }

  /** Stripping twice is stripping once. */
  lemma StripSpacesIdempotent(s: string)
    ensures StripSpaces(StripSpaces(s)) == StripSpaces(s)
  {
    StripSpacesKeepsClean(StripSpaces(s));
  }
}
