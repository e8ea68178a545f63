/** Character and string helpers shared by the tagger and the query model. */
module Text {

  /** The ASCII capital letters: the only characters ASCII lower-casing changes. */
  predicate IsAsciiUpper(c: char) {
    'A' <= c <= 'Z'
  }

  /** ASCII lower-casing of one character; every other character is left alone. */
  function LowerChar(c: char): (d: char)
    ensures !IsAsciiUpper(d)
    ensures IsAsciiUpper(c) || d == c
  {
    if IsAsciiUpper(c) then (c as int + 32) as char else c
  }

  /** ASCII lower-casing of a string (Python's `str.lower` restricted to ASCII letters). */
  function Lower(s: string): (t: string)
    ensures |t| == |s|
    ensures forall i :: 0 <= i < |s| ==> t[i] == LowerChar(s[i])
  {
    if s == [] then [] else [LowerChar(s[0])] + Lower(s[1..])
  }

  /** Lower-casing twice is lower-casing once. */
  lemma LowerIdempotent(s: string)
    ensures Lower(Lower(s)) == Lower(s)
  {
    forall i | 0 <= i < |s|
      ensures Lower(Lower(s))[i] == Lower(s)[i]
    {
      assert !IsAsciiUpper(Lower(s)[i]);
    }
  }

  /** `pat` occurs in `text` starting at index `i`. */
  predicate OccursAt(text: string, pat: string, i: int) {
    0 <= i && i + |pat| <= |text| && text[i..i + |pat|] == pat
  }

  /** Python's `pat in text`: `pat` is a substring of `text`. */
  predicate Contains(text: string, pat: string) {
    exists i :: 0 <= i <= |text| - |pat| && OccursAt(text, pat, i)
  }

  /** Python's `sep.join(parts)`. */
  function Join(parts: seq<string>, sep: string): (s: string)
    ensures |parts| > 0 && |parts[0]| > 0 ==> |s| > 0 && s[0] == parts[0][0]
  {
    if |parts| == 0 then ""
    else if |parts| == 1 then parts[0]
    else parts[0] + sep + Join(parts[1..], sep)
  }

  /** Index of the first comma in `s`, or `|s|` when there is none. */
  function CommaIndex(s: string): (k: nat)
    ensures k <= |s|
    ensures forall i :: 0 <= i < k ==> s[i] != ','
    ensures k < |s| ==> s[k] == ','
  {
    if s == [] || s[0] == ',' then 0 else 1 + CommaIndex(s[1..])
  }

  /**
   * Reads back a string rendered by `Join(parts, ", ")`: cuts at every comma and
   * drops the blank that follows it.
   */
  function SplitTags(s: string): (parts: seq<string>)
    ensures |parts| > 0
    decreases |s|
  {
    var k := CommaIndex(s);
    if k == |s| then [s]
    else [s[..k]] + SplitTags(s[if k + 2 <= |s| then k + 2 else |s|..])
  }

  /** Joining comma-free names with ", " and splitting the result gives the names back. */
  lemma {:induction false} SplitJoin(parts: seq<string>)
    requires |parts| > 0
    requires forall p :: p in parts ==> ',' !in p
    ensures SplitTags(Join(parts, ", ")) == parts
  {
    var p := parts[0];
    assert ',' !in p;
    if |parts| > 1 {
      var rest := Join(parts[1..], ", ");
      var s := p + ", " + rest;
      assert Join(parts, ", ") == s;
      var k := CommaIndex(s);
      assert s[|p|] == ',';
      assert k == |p|;
      assert s[..k] == p;
      assert s[k + 2..] == rest;
      forall q | q in parts[1..] ensures ',' !in q {
        assert q in parts;
      }
      SplitJoin(parts[1..]);
      assert parts == [p] + parts[1..];
    }
  }
}
