/** White space at the ends of a string, in ASCII. */
module Text {
  predicate Space(c: char) { c == ' ' || '\t' <= c <= '\r' || '\U{1c}' <= c <= '\U{1f}' }

  function StripLeft(s: string): string { if s != [] && Space(s[0]) then StripLeft(s[1..]) else s }

  function StripRight(s: string): string { if s != [] && Space(s[|s| - 1]) then StripRight(s[..|s| - 1]) else s }

  function Strip(s: string): string { StripRight(StripLeft(s)) }

  predicate Bare(s: string) { s != [] ==> !Space(s[0]) && !Space(s[|s| - 1]) }

  lemma {:induction false} LeftBare(s: string)
    ensures StripLeft(s) != [] ==> !Space(StripLeft(s)[0])
  {
    if s != [] && Space(s[0]) { LeftBare(s[1..]); }
  }

  lemma {:induction false} RightBare(s: string)
    requires s != [] ==> !Space(s[0])
    ensures Bare(StripRight(s))
  {
    if s != [] && Space(s[|s| - 1]) { RightBare(s[..|s| - 1]); }
  }

  /** Stripping leaves no white space at either end, and a string without any alone. */
  lemma StripIsBare(s: string)
    ensures Bare(Strip(s)) && (Bare(s) ==> Strip(s) == s)
  {
    LeftBare(s);
    RightBare(StripLeft(s));
  }

  predicate AllSpace(s: string) { forall c | c in s :: Space(c) }

  lemma {:induction false} LeftCuts(s: string) returns (a: string)
    ensures s == a + StripLeft(s) && AllSpace(a)
  {
    a := [];
    if s != [] && Space(s[0]) {
      a := LeftCuts(s[1..]);
      assert s == [s[0]] + s[1..];
      a := [s[0]] + a;
    }
  }

  lemma {:induction false} RightCuts(s: string) returns (b: string)
    ensures s == StripRight(s) + b && AllSpace(b)
  {
    b := [];
    if s != [] && Space(s[|s| - 1]) {
      var n := |s| - 1;
      b := RightCuts(s[..n]);
      assert s == s[..n] + [s[n]];
      b := b + [s[n]];
    }
  }

  /** Nothing but white space is stripped, and from the ends only. */
  lemma StripCuts(s: string) returns (a: string, b: string)
    ensures s == a + Strip(s) + b && AllSpace(a) && AllSpace(b)
  {
    a := LeftCuts(s);
    b := RightCuts(StripLeft(s));
  }
}
