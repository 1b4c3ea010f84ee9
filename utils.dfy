/**
 * The string step of `formatDateToDate` (src/utils.ts): an ISO-8601 text
 * such as "2024-01-01T08:00:00Z" has its first `T` replaced by a space and
 * its first `Z` removed before it is handed to the date parser. JavaScript's
 * `String.prototype.replace` with a string pattern replaces only the first
 * occurrence. The parser itself is a parameter: date values are integers.
 */
module Utils {

  /** Position of the first `c` in `s`, or -1, as `indexOf` answers. */
  function IndexOf(s: string, c: char): (r: int)
    ensures -1 <= r < |s|
    ensures r >= 0 ==> s[r] == c && forall i :: 0 <= i < r ==> s[i] != c
    ensures r == -1 <==> c !in s
  {
    if s == [] then -1
    else if s[0] == c then 0
    else
      var k := IndexOf(s[1..], c);
      assert forall i :: 0 < i < |s| ==> s[i] == s[1..][i - 1];
      if k == -1 then -1 else k + 1
  }

  /** `s.replace(c, with)` with a one-character string pattern. */
  function ReplaceFirst(s: string, c: char, with: string): (r: string)
    ensures c !in s ==> r == s
    ensures c in s ==> |r| == |s| - 1 + |with|
    ensures c in s ==> r[..IndexOf(s, c)] == s[..IndexOf(s, c)]
  {
    var k := IndexOf(s, c);
    if k < 0 then s else s[..k] + with + s[k + 1..]
  }

  /** What `replace` puts where: the text before the first `c`, then the
      replacement, then the text after that `c`. */
  lemma ReplaceFirstContents(s: string, c: char, with: string)
    requires c in s
    ensures var k := IndexOf(s, c);
            var r := ReplaceFirst(s, c, with);
            && r[k..k + |with|] == with
            && r[k + |with|..] == s[k + 1..]
  {
    var k := IndexOf(s, c);
    var r := ReplaceFirst(s, c, with);
    assert r == s[..k] + with + s[k + 1..];
    assert r[k..k + |with|] == (s[..k] + with)[k..];
  }

  /** `date.replace('T', ' ').replace('Z', '')`. */
  function NormalizeDateText(date: string): (r: string)
    ensures 'T' !in date && 'Z' !in date ==> r == date
  {
    ReplaceFirst(ReplaceFirst(date, 'T', " "), 'Z', "")
  }

  /** `formatDateToDate`: the normalised text given to the date parser. */
  function FormatDateToDate(date: string, parse: string -> int): int
  {
    parse(NormalizeDateText(date))
  }

  /** Replacing the first `T` by a space keeps the length and every other
      character, so the first `Z` is where it was. */
  lemma SpaceStepKeepsZ(s: string)
    ensures var u := ReplaceFirst(s, 'T', " ");
            |u| == |s| && IndexOf(u, 'Z') == IndexOf(s, 'Z')
            && forall i :: 0 <= i < |s| ==> u[i] == (if i == IndexOf(s, 'T') then ' ' else s[i])
  {
    var u := ReplaceFirst(s, 'T', " ");
    var t := IndexOf(s, 'T');
    assert forall i :: 0 <= i < |s| ==> u[i] == (if i == t then ' ' else s[i]);
    IndexOfAgrees(s, u, 'Z');
  }

  /** Two strings that agree wherever either holds `c` have the same first `c`. */
  lemma IndexOfAgrees(s: string, u: string, c: char)
    requires |s| == |u|
    requires forall i :: 0 <= i < |s| ==> (s[i] == c <==> u[i] == c)
    ensures IndexOf(s, c) == IndexOf(u, c)
  {
    var a, b := IndexOf(s, c), IndexOf(u, c);
    if a >= 0 {
      assert u[a] == c;
    }
    if b >= 0 {
      assert s[b] == c;
    }
  }

  /** The normalisation shortens the text by exactly one character when it
      holds a `Z`, and keeps its length otherwise. */
  lemma NormalizeLength(date: string)
    ensures |NormalizeDateText(date)| == |date| - (if 'Z' in date then 1 else 0)
  {
    SpaceStepKeepsZ(date);
    var u := ReplaceFirst(date, 'T', " ");
    assert ('Z' in u) == ('Z' in date) by {
      assert IndexOf(u, 'Z') == IndexOf(date, 'Z');
    }
  }

  /** Character by character: position `i` of the result is position `j` of
      the input, where `j` skips over the first `Z`; that character is a space
      if `j` is the first `T` and is unchanged otherwise. So only the first `T`
      and the first `Z` are touched, and later ones survive. */
  lemma NormalizeAt(date: string, i: int)
    requires 0 <= i < |NormalizeDateText(date)|
    ensures var z := IndexOf(date, 'Z');
            var j := if z >= 0 && i >= z then i + 1 else i;
            j < |date|
            && NormalizeDateText(date)[i] == (if j == IndexOf(date, 'T') then ' ' else date[j])
  {
    SpaceStepKeepsZ(date);
    var u := ReplaceFirst(date, 'T', " ");
    if 'Z' in u {
      RemoveFirstAt(u, 'Z', i);
    }
  }

  /** Removing the first `c` shifts every later character one place left. */
  lemma RemoveFirstAt(u: string, c: char, i: int)
    requires c in u && 0 <= i < |u| - 1
    ensures var k := IndexOf(u, c);
            ReplaceFirst(u, c, "")[i] == u[if i >= k then i + 1 else i]
  {
    var k := IndexOf(u, c);
    var r := ReplaceFirst(u, c, "");
    assert r == u[..k] + u[k + 1..];
  }

  /** Where position `j` of the input lands in the normalised text: one
      place to the left when it lies after the first `Z`. */
  function Landing(date: string, j: int): (r: int)
    ensures var z := IndexOf(date, 'Z');
            r == j || (z >= 0 && j > z && r == j - 1)
  {
    var z := IndexOf(date, 'Z');
    if z >= 0 && j > z then j - 1 else j
  }

  /** A text with at least one `T` gets a space where its first `T` lands,
      and every later `T` is kept where it lands, whether or not the text
      holds a `Z`. */
  lemma NormalizeKeepsLaterT(date: string, k: int)
    requires 0 <= k < |date| && date[k] == 'T'
    ensures IndexOf(date, 'T') <= k
    ensures 0 <= Landing(date, IndexOf(date, 'T')) < |NormalizeDateText(date)|
    ensures NormalizeDateText(date)[Landing(date, IndexOf(date, 'T'))] == ' '
    ensures k != IndexOf(date, 'T') ==>
              0 <= Landing(date, k) < |NormalizeDateText(date)|
              && NormalizeDateText(date)[Landing(date, k)] == 'T'
  {
    LandsAt(date, IndexOf(date, 'T'));
    LandsAt(date, k);
  }

  /** Every input character other than the first `Z` lands inside the
      normalised text, as a space if it is the first `T` and unchanged
      otherwise. */
  lemma LandsAt(date: string, j: int)
    requires 0 <= j < |date| && j != IndexOf(date, 'Z')
    ensures 0 <= Landing(date, j) < |NormalizeDateText(date)|
    ensures NormalizeDateText(date)[Landing(date, j)] == (if j == IndexOf(date, 'T') then ' ' else date[j])
  {
    NormalizeLength(date);
    LandingInverse(date, j);
    NormalizeAt(date, Landing(date, j));
  }

  /** The first `Z` is the only input position that lands nowhere: every
      other one lands on a position of the shortened text from which
      `NormalizeAt` leads back to it. */
  lemma LandingInverse(date: string, j: int)
    requires 0 <= j < |date| && j != IndexOf(date, 'Z')
    ensures var z := IndexOf(date, 'Z');
            var i := Landing(date, j);
            && 0 <= i < |date| - (if 'Z' in date then 1 else 0)
            && (if z >= 0 && i >= z then i + 1 else i) == j
  {
  }
}
