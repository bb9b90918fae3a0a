/**
 * Text files as the toolkit sees them once the file system is abstracted
 * away, and ordinal substring containment (`string.Contains`).
 */
module Text {

  /** A text file: its path and the text `File.ReadAllText` returns for it. */
  datatype TextFile = TextFile(filePath: string, content: string)

  /** `value` occurs in `s` starting at position `i`, comparing characters ordinally. */
  ghost predicate OccursAt(s: string, value: string, i: int)
  {
    0 <= i && i + |value| <= |s| && s[i..i + |value|] == value
  }

  /**
   * Ordinal substring test: true iff `value` occurs somewhere in `s`.
   * The empty string occurs (at position 0) in every string.
   */
  function Contains(s: string, value: string): (b: bool)
    ensures b <==> exists i :: OccursAt(s, value, i)
    decreases |s|
  {
    if |value| > |s| then
      false
    else if s[..|value|] == value then
      assert OccursAt(s, value, 0);
      true
    else
      ShiftOccurrence(s, value);
      Contains(s[1..], value)
  }

  /** When `value` is not a prefix of `s`, it occurs in `s` iff it occurs in `s` without its first character. */
  lemma ShiftOccurrence(s: string, value: string)
    requires |value| <= |s| && s[..|value|] != value
    ensures |s| > 0
    ensures (exists i :: OccursAt(s, value, i)) <==> (exists j :: OccursAt(s[1..], value, j))
  {
    if exists j :: OccursAt(s[1..], value, j) {
      var j :| OccursAt(s[1..], value, j);
      assert s[1..][j..j + |value|] == s[j + 1..j + 1 + |value|];
      assert OccursAt(s, value, j + 1);
    }
    if exists i :: OccursAt(s, value, i) {
      var i :| OccursAt(s, value, i);
      assert i != 0;
      assert s[1..][i - 1..i - 1 + |value|] == s[i..i + |value|];
      assert OccursAt(s[1..], value, i - 1);
    }
  }

  /** The paths of a directory listing, in enumeration order. */
  function Paths(dir: seq<TextFile>): (ps: seq<string>)
    ensures |ps| == |dir|
    ensures forall i :: 0 <= i < |dir| ==> ps[i] == dir[i].filePath
  {
    seq(|dir|, i requires 0 <= i < |dir| => dir[i].filePath)
  }

  /** The empty string is contained in every string. */
  lemma ContainsEmpty(s: string)
    ensures Contains(s, "")
  {
    assert OccursAt(s, "", 0);
  }
}
