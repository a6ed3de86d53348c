/**
 * The id validator shared by the GraphQL resolvers and the users, profiles and
 * posts routes: the unanchored pattern
 * `[\da-f]{8}-[\da-f]{4}-[\da-f]{4}-[\da-f]{4}-[\da-f]{12}` must occur in the
 * string, and the string must be exactly 36 characters long.
 */
module Uuid {

  /** The number of characters the pattern spans. */
  const PatternLength := 36

  /** `[\da-f]`: an ASCII digit or a lower-case letter a to f (the pattern has no `i` flag). */
  predicate IsHexDigit(c: char) {
    '0' <= c <= '9' || 'a' <= c <= 'f'
  }

  /** The offsets of the four literal `-` separators inside the pattern. */
  predicate IsDashOffset(i: int) {
    i == 8 || i == 13 || i == 18 || i == 23
  }

  /** The character class the pattern places at offset `i`. */
  predicate PatternAccepts(i: int, c: char) {
    if IsDashOffset(i) then c == '-' else IsHexDigit(c)
  }

  /** The pattern matches the 36 characters of `s` that start at `k`. */
  predicate MatchesAt(s: string, k: nat)
    requires k + PatternLength <= |s|
  {
    forall i :: k <= i < k + PatternLength ==> PatternAccepts(i - k, s[i])
  }

  /** `s.match(uuidRegEx)` is truthy: the pattern occurs somewhere in `s`. */
  predicate ContainsMatch(s: string) {
    exists k :: 0 <= k && k + PatternLength <= |s| && MatchesAt(s, k)
  }

  /**
   * `isUUID`: a match somewhere and a length of 36. Because the pattern itself
   * spans 36 characters, the match must cover the whole string.
   */
  function IsUuid(s: string): (r: bool)
    ensures r ==> |s| == PatternLength
    ensures r <==> |s| == PatternLength && forall i :: 0 <= i < PatternLength ==> PatternAccepts(i, s[i])
  {
    assert |s| == PatternLength ==> (MatchesAt(s, 0) ==> ContainsMatch(s));
    assert ContainsMatch(s) && |s| == PatternLength ==> MatchesAt(s, 0);
    ContainsMatch(s) && |s| == PatternLength
  }

  /** An accepted id has `-` at offsets 8, 13, 18 and 23 and a lower-case hex digit everywhere else. */
  lemma AcceptedShape(s: string)
    requires IsUuid(s)
    ensures s[8] == '-' && s[13] == '-' && s[18] == '-' && s[23] == '-'
    ensures forall i :: 0 <= i < |s| && !IsDashOffset(i) ==> IsHexDigit(s[i])
  {
    assert PatternAccepts(8, s[8]) && PatternAccepts(13, s[13]);
    assert PatternAccepts(18, s[18]) && PatternAccepts(23, s[23]);
  }

  /** Upper-case hex digits are rejected wherever they occur. */
  lemma UpperCaseRejected(s: string, i: nat)
    requires i < |s| && 'A' <= s[i] <= 'F'
    ensures !IsUuid(s)
  {
    assert !PatternAccepts(i, s[i]);
  }

  /** Every character of `t` is in `[\da-f]`. */
  predicate AllHex(t: string) {
    forall i :: 0 <= i < |t| ==> IsHexDigit(t[i])
  }

  /** Every canonical lower-case 8-4-4-4-12 string is accepted. */
  lemma {:induction false} CanonicalAccepted(a: string, b: string, c: string, d: string, e: string)
    requires |a| == 8 && |b| == 4 && |c| == 4 && |d| == 4 && |e| == 12
    requires AllHex(a) && AllHex(b) && AllHex(c) && AllHex(d) && AllHex(e)
    ensures IsUuid(a + "-" + b + "-" + c + "-" + d + "-" + e)
  {
    var s := a + "-" + b + "-" + c + "-" + d + "-" + e;
    assert |s| == PatternLength;
    forall i | 0 <= i < PatternLength
      ensures PatternAccepts(i, s[i])
    {
      if i < 8 {
        assert s[i] == a[i];
      } else if i == 8 || i == 13 || i == 18 || i == 23 {
        assert s[i] == '-';
      } else if i < 13 {
        assert s[i] == b[i - 9];
      } else if i < 18 {
        assert s[i] == c[i - 14];
      } else if i < 23 {
        assert s[i] == d[i - 19];
      } else {
        assert s[i] == e[i - 24];
      }
    }
  }
}
