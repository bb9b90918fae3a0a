/**
 * `TextFileSearcher.SearchFiles`: the files of a directory listing, in
 * enumeration order, whose content contains every keyword.
 */
module Searcher {
  import opened Text

  /** `keywords.All(keyword => content.Contains(keyword))`. */
  predicate ContainsAll(content: string, keywords: seq<string>): (b: bool)
    ensures b <==> forall i :: 0 <= i < |keywords| ==> Contains(content, keywords[i])
  {
    forall k | k in keywords :: Contains(content, k)
  }

  /** The paths `SearchFiles` returns for `dir`, defined file by file. */
  function Matching(dir: seq<TextFile>, keywords: seq<string>): (paths: seq<string>)
    ensures |paths| <= |dir|
  {
    if |dir| == 0 then []
    else
      var last := dir[|dir| - 1];
      Matching(dir[..|dir| - 1], keywords)
        + (if ContainsAll(last.content, keywords) then [last.filePath] else [])
  }

  /** The search loop: one pass over the listing, appending each file that matches. */
  method SearchFiles(dir: seq<TextFile>, keywords: seq<string>) returns (result: seq<string>)
    ensures result == Matching(dir, keywords)
  {
    result := [];
    var i := 0;
    while i < |dir|
      invariant 0 <= i <= |dir|
      invariant result == Matching(dir[..i], keywords)
    {
      var file := dir[i];
      var content := file.content;
      if ContainsAll(content, keywords) {
        result := result + [file.filePath];
      }
      assert dir[..i + 1][..i] == dir[..i];
      i := i + 1;
    }
    assert dir[..|dir|] == dir;
  }

  /** Searching a concatenated listing concatenates the results: the order of the listing is kept. */
  lemma {:induction false} MatchingAppend(a: seq<TextFile>, b: seq<TextFile>, keywords: seq<string>)
    ensures Matching(a + b, keywords) == Matching(a, keywords) + Matching(b, keywords)
    decreases |b|
  {
    if |b| == 0 {
      assert a + b == a;
    } else {
      var n := |b| - 1;
      assert (a + b)[..|a + b| - 1] == a + b[..n];
      assert (a + b)[|a + b| - 1] == b[n];
      MatchingAppend(a, b[..n], keywords);
    }
  }

  /** A one-file listing yields that file's path exactly when it contains every keyword. */
  lemma MatchingSingle(f: TextFile, keywords: seq<string>)
    ensures Matching([f], keywords) == if ContainsAll(f.content, keywords) then [f.filePath] else []
  {
  }

  /** A path is in the result iff some file of the listing with that path contains every keyword. */
  lemma {:induction false} MatchingMembership(dir: seq<TextFile>, keywords: seq<string>, p: string)
    ensures p in Matching(dir, keywords) <==>
      exists i :: 0 <= i < |dir| && dir[i].filePath == p && ContainsAll(dir[i].content, keywords)
    decreases |dir|
  {
    if |dir| > 0 {
      var n := |dir| - 1;
      var front := dir[..n];
      var last := dir[n];
      MatchingMembership(front, keywords, p);
      var tail := if ContainsAll(last.content, keywords) then [last.filePath] else [];
      assert p in Matching(dir, keywords) <==> p in Matching(front, keywords) || p in tail;
      if p in Matching(front, keywords) {
        var i :| 0 <= i < n && front[i].filePath == p && ContainsAll(front[i].content, keywords);
        assert dir[i] == front[i];
      }
      if exists i :: 0 <= i < |dir| && dir[i].filePath == p && ContainsAll(dir[i].content, keywords) {
        var i :| 0 <= i < |dir| && dir[i].filePath == p && ContainsAll(dir[i].content, keywords);
        if i < n {
          assert front[i] == dir[i];
        }
      }
    }
  }

  /** With no keywords every file matches, so every path is returned in order. */
  lemma {:induction false} MatchingNoKeywords(dir: seq<TextFile>)
    ensures Matching(dir, []) == Paths(dir)
    decreases |dir|
  {
    if |dir| > 0 {
      var n := |dir| - 1;
      MatchingNoKeywords(dir[..n]);
      assert Paths(dir) == Paths(dir[..n]) + [dir[n].filePath];
    }
  }

  /** Searching for a single keyword is plain containment. */
  lemma ContainsAllSingle(content: string, keyword: string)
    ensures ContainsAll(content, [keyword]) <==> Contains(content, keyword)
  {
    assert [keyword][0] == keyword;
  }
}
