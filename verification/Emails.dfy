/** How addresses are brought to one form before they are compared or stored. */
module Emails {
  import opened Text

  function LowerChar(c: char): char { if 'A' <= c <= 'Z' then (c as int + 32) as char else c }

  function Lower(s: string): (r: string)
    ensures |r| == |s| && forall i | 0 <= i < |s| :: r[i] == LowerChar(s[i])
  {
    seq(|s|, i requires 0 <= i < |s| => LowerChar(s[i]))
  }

  function Norm(s: string): string { Lower(Strip(s)) }

  /** What a sendable address must look like to enter a campaign's pool. */
  predicate Usable(email: string) { email != [] && '@' in email }

  /** Normalising a second time changes nothing, so stored addresses compare like fresh ones. */
  lemma NormTwice(s: string)
    ensures Norm(Norm(s)) == Norm(s)
  {
    var n := Norm(s);
    StripIsBare(s);
    assert Bare(n);
    StripIsBare(n);
    assert Lower(n) == n;
  }

  predicate Capital(c: char) { 'A' <= c <= 'Z' }

  /** The same character but for letter case: the capitals are 32 places before the small letters. */
  predicate SameLetter(c: char, d: char) {
    || c == d
    || (Capital(c) && d as int == c as int + 32)
    || (Capital(d) && c as int == d as int + 32)
  }

  predicate SameLetters(s: string, t: string) { |s| == |t| && forall i | 0 <= i < |s| :: SameLetter(s[i], t[i]) }

  /** Two spellings of one address: alike but for letter case and white space around them. */
  predicate SameAddress(s: string, t: string) { SameLetters(Strip(s), Strip(t)) }

  lemma LowerMeaning(s: string, t: string)
    ensures Lower(s) == Lower(t) <==> SameLetters(s, t)
  {
    forall c, d ensures LowerChar(c) == LowerChar(d) <==> SameLetter(c, d) {}
    if Lower(s) == Lower(t) {
      forall i | 0 <= i < |s| ensures SameLetter(s[i], t[i]) { assert Lower(s)[i] == Lower(t)[i]; }
    }
  }

  /** The normal form has no capitals and no white space around it, and two addresses share it exactly when they are
      spellings of one. */
  lemma NormMeaning(s: string, t: string)
    ensures (forall c | c in Norm(s) :: !Capital(c)) && Bare(Norm(s))
    ensures Norm(s) == Norm(t) <==> SameAddress(s, t)
    ensures Norm(s) == "" <==> Strip(s) == ""
  {
    StripIsBare(s);
    LowerMeaning(Strip(s), Strip(t));
  }

  /** A stored address is compared by its normal form, so any spelling of it finds it. */
  lemma StoredMeaning(stored: string, s: string)
    requires Norm(stored) == stored
    ensures stored == Norm(s) <==> SameAddress(stored, s)
  {
    NormMeaning(stored, s);
  }
}
