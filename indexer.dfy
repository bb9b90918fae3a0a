/**
 * `FileIndexer.IndexFiles`: a dictionary from keyword to the paths of the
 * files whose content contains it. Keys are created lazily, on the first
 * match, and a path is appended once per occurrence of the keyword in the
 * keyword list.
 */
module Indexer {
  import opened Text
  import Searcher

  type Index = map<string, seq<string>>

  /** The list stored under `keyword`, or the empty list when there is no such key. */
  function Lookup(index: Index, keyword: string): (list: seq<string>)
  {
    if keyword in index then index[keyword] else []
  }

  /** `n` copies of `p`. */
  function Repeat(p: string, n: nat): (r: seq<string>)
    ensures |r| == n
  {
    if n == 0 then [] else Repeat(p, n - 1) + [p]
  }

  /**
   * The body of the inner loop for one keyword: when the content contains it,
   * create the key if it is missing and append the path to its list.
   */
  function Record(index: Index, path: string, content: string, keyword: string): (r: Index)
    ensures r.Keys == if Contains(content, keyword) then index.Keys + {keyword} else index.Keys
    ensures r - {keyword} == index - {keyword}
  {
    if Contains(content, keyword) then
      var created := if keyword !in index then index[keyword := []] else index;
      created[keyword := created[keyword] + [path]]
    else
      index
  }

  /** The inner loop over `keywords` for one file. */
  function RecordAll(index: Index, path: string, content: string, keywords: seq<string>): (r: Index)
  {
    if |keywords| == 0 then index
    else
      Record(RecordAll(index, path, content, keywords[..|keywords| - 1]), path, content, keywords[|keywords| - 1])
  }

  /** The outer loop over the directory listing, from the empty dictionary. */
  function Build(dir: seq<TextFile>, keywords: seq<string>): (index: Index)
    ensures forall k :: k in index ==> k in keywords
  {
    if |dir| == 0 then map[]
    else
      var last := dir[|dir| - 1];
      var before := Build(dir[..|dir| - 1], keywords);
      var r := RecordAll(before, last.filePath, last.content, keywords);
      assert forall k :: k in r ==> k in keywords by {
        forall k | k in r
          ensures k in keywords
        {
          RecordAllKeys(before, last.filePath, last.content, keywords, k);
        }
      }
      r
  }

  /** The nested loops of `IndexFiles`, growing the dictionary in place. */
  method IndexFiles(dir: seq<TextFile>, keywords: seq<string>) returns (index: Index)
    ensures index == Build(dir, keywords)
  {
    index := map[];
    var i := 0;
    while i < |dir|
      invariant 0 <= i <= |dir|
      invariant index == Build(dir[..i], keywords)
    {
      var file := dir[i];
      var content := file.content;
      ghost var before := index;
      var j := 0;
      while j < |keywords|
        invariant 0 <= j <= |keywords|
        invariant index == RecordAll(before, file.filePath, content, keywords[..j])
      {
        var keyword := keywords[j];
        if Contains(content, keyword) {
          if keyword !in index {
            index := index[keyword := []];
          }
          index := index[keyword := index[keyword] + [file.filePath]];
        }
        assert keywords[..j + 1][..j] == keywords[..j];
        j := j + 1;
      }
      assert keywords[..|keywords|] == keywords;
      assert dir[..i + 1][..i] == dir[..i];
      i := i + 1;
    }
    assert dir[..|dir|] == dir;
  }

  /**
   * Reference definition of the list under `keyword`, independent of the
   * dictionary: file by file in enumeration order, the path repeated as many
   * times as `keyword` occurs in `keywords`, for every file containing it.
   */
  function Listing(dir: seq<TextFile>, keywords: seq<string>, keyword: string): (paths: seq<string>)
  {
    if |dir| == 0 then []
    else
      var last := dir[|dir| - 1];
      Listing(dir[..|dir| - 1], keywords, keyword)
        + (if Contains(last.content, keyword) then Repeat(last.filePath, multiset(keywords)[keyword]) else [])
  }

  /** The path repeated is the only entry of `Repeat`. */
  lemma {:induction false} RepeatMembership(p: string, n: nat, q: string)
    ensures q in Repeat(p, n) <==> n > 0 && q == p
  {
    if n > 0 {
      RepeatMembership(p, n - 1, q);
    }
  }

  /** Removing the last keyword lowers its count by one and leaves every other count alone. */
  lemma CountLast(keywords: seq<string>, keyword: string)
    requires |keywords| > 0
    ensures var n := |keywords| - 1;
      multiset(keywords)[keyword] == multiset(keywords[..n])[keyword] + (if keywords[n] == keyword then 1 else 0)
  {
    var n := |keywords| - 1;
    assert keywords == keywords[..n] + [keywords[n]];
  }

  /** What one pass of the inner loop does to the entry for `keyword`. */
  lemma RecordEffect(index: Index, path: string, content: string, k: string, keyword: string)
    ensures var r := Record(index, path, content, k);
      && (keyword in r <==> keyword in index || (keyword == k && Contains(content, keyword)))
      && Lookup(r, keyword) == Lookup(index, keyword) + (if keyword == k && Contains(content, keyword) then [path] else [])
  {
  }

  /** One file's inner loop creates a key only for a keyword of the list that the content contains. */
  lemma {:induction false} RecordAllKeys(index: Index, path: string, content: string, keywords: seq<string>, keyword: string)
    ensures keyword in RecordAll(index, path, content, keywords) <==>
      keyword in index || (keyword in keywords && Contains(content, keyword))
    decreases |keywords|
  {
    if |keywords| > 0 {
      var n := |keywords| - 1;
      var front := keywords[..n];
      assert keywords == front + [keywords[n]];
      assert keyword in keywords <==> keyword in front || keyword == keywords[n];
      RecordAllKeys(index, path, content, front, keyword);
      RecordEffect(RecordAll(index, path, content, front), path, content, keywords[n], keyword);
    }
  }

  /** Appending one more copy on a hit extends the repeated run by one. */
  lemma AppendRepeat(whole: seq<string>, part: seq<string>, before: seq<string>, path: string, c: nat, m: nat, matched: bool, hit: bool)
    requires whole == part + (if hit && matched then [path] else [])
    requires part == before + (if matched then Repeat(path, c) else [])
    requires m == c + (if hit then 1 else 0)
    ensures whole == before + (if matched then Repeat(path, m) else [])
  {
    if matched && hit {
      assert Repeat(path, m) == Repeat(path, c) + [path];
    }
  }

  /** The last keyword of the inner loop appends the path to its own list only, and only on a match. */
  lemma RecordAllStep(index: Index, path: string, content: string, keywords: seq<string>, keyword: string)
    requires |keywords| > 0
    ensures var n := |keywords| - 1;
      Lookup(RecordAll(index, path, content, keywords), keyword)
        == Lookup(RecordAll(index, path, content, keywords[..n]), keyword)
           + (if keywords[n] == keyword && Contains(content, keyword) then [path] else [])
  {
    var n := |keywords| - 1;
    RecordEffect(RecordAll(index, path, content, keywords[..n]), path, content, keywords[n], keyword);
  }

  /** One file's inner loop appends its path to a keyword's list once per occurrence of that keyword in the list. */
  lemma {:induction false} RecordAllLists(index: Index, path: string, content: string, keywords: seq<string>, keyword: string)
    ensures Lookup(RecordAll(index, path, content, keywords), keyword) == Lookup(index, keyword)
      + (if Contains(content, keyword) then Repeat(path, multiset(keywords)[keyword]) else [])
    decreases |keywords|
  {
    if |keywords| > 0 {
      var n := |keywords| - 1;
      var front := keywords[..n];
      CountLast(keywords, keyword);
      RecordAllStep(index, path, content, keywords, keyword);
      RecordAllLists(index, path, content, front, keyword);
      AppendRepeat(Lookup(RecordAll(index, path, content, keywords), keyword), Lookup(RecordAll(index, path, content, front), keyword),
        Lookup(index, keyword), path, multiset(front)[keyword], multiset(keywords)[keyword], Contains(content, keyword), keywords[n] == keyword);
    }
  }

  /** The dictionary agrees with the reference listing for every keyword, and has a key exactly where that listing is non-empty. */
  lemma {:induction false} BuildListing(dir: seq<TextFile>, keywords: seq<string>, keyword: string)
    ensures Lookup(Build(dir, keywords), keyword) == Listing(dir, keywords, keyword)
    ensures keyword in Build(dir, keywords) <==> Listing(dir, keywords, keyword) != []
    decreases |dir|
  {
    if |dir| > 0 {
      var n := |dir| - 1;
      var last := dir[n];
      BuildListing(dir[..n], keywords, keyword);
      RecordAllKeys(Build(dir[..n], keywords), last.filePath, last.content, keywords, keyword);
      RecordAllLists(Build(dir[..n], keywords), last.filePath, last.content, keywords, keyword);
      if keyword in Build(dir[..n], keywords) {
        assert Build(dir[..n], keywords)[keyword] == Listing(dir[..n], keywords, keyword);
      }
      assert keyword in keywords <==> multiset(keywords)[keyword] > 0;
    }
  }

  /** A path is listed under `keyword` iff `keyword` is one of the keywords and some file with that path contains it. */
  lemma {:induction false} ListingMembership(dir: seq<TextFile>, keywords: seq<string>, keyword: string, p: string)
    ensures p in Listing(dir, keywords, keyword) <==>
      keyword in keywords && exists i :: 0 <= i < |dir| && dir[i].filePath == p && Contains(dir[i].content, keyword)
    decreases |dir|
  {
    if |dir| > 0 {
      var n := |dir| - 1;
      ListingMembership(dir[..n], keywords, keyword, p);
      assert keyword in keywords <==> multiset(keywords)[keyword] > 0;
      RepeatMembership(dir[n].filePath, multiset(keywords)[keyword], p);
      if exists i :: 0 <= i < |dir| && dir[i].filePath == p && Contains(dir[i].content, keyword) {
        var i :| 0 <= i < |dir| && dir[i].filePath == p && Contains(dir[i].content, keyword);
        if i < n {
          assert dir[..n][i] == dir[i];
        }
      }
      if p in Listing(dir[..n], keywords, keyword) {
        var i :| 0 <= i < n && dir[..n][i].filePath == p && Contains(dir[..n][i].content, keyword);
        assert dir[i] == dir[..n][i];
      }
    }
  }

  /**
   * `IndexFiles`, the membership property: `p` is in the list for `keyword`
   * iff `keyword` is one of `keywords` and a file with path `p` contains it.
   */
  lemma IndexMembership(dir: seq<TextFile>, keywords: seq<string>, keyword: string, p: string)
    ensures var index := Build(dir, keywords);
      keyword in index && p in index[keyword] <==>
        keyword in keywords && exists i :: 0 <= i < |dir| && dir[i].filePath == p && Contains(dir[i].content, keyword)
  {
    BuildListing(dir, keywords, keyword);
    ListingMembership(dir, keywords, keyword, p);
  }

  /**
   * `IndexFiles`, the lazily created keys: a key exists iff it is one of
   * `keywords` and some file contains it, and no key holds an empty list.
   */
  lemma IndexKeys(dir: seq<TextFile>, keywords: seq<string>, keyword: string)
    ensures var index := Build(dir, keywords);
      && (keyword in index <==> keyword in keywords && exists i :: 0 <= i < |dir| && Contains(dir[i].content, keyword))
      && (keyword in index ==> index[keyword] != [])
  {
    BuildListing(dir, keywords, keyword);
    var index := Build(dir, keywords);
    if keyword in index {
      var p := index[keyword][0];
      IndexMembership(dir, keywords, keyword, p);
    }
    if keyword in keywords && exists i :: 0 <= i < |dir| && Contains(dir[i].content, keyword) {
      var i :| 0 <= i < |dir| && Contains(dir[i].content, keyword);
      IndexMembership(dir, keywords, keyword, dir[i].filePath);
    }
  }

  /**
   * `IndexFiles`, duplicates: each matching file contributes its path once per
   * occurrence of the keyword in `keywords`, so the list's length is that
   * count times the number of matching files.
   */
  lemma {:induction false} ListingLength(dir: seq<TextFile>, keywords: seq<string>, keyword: string)
    ensures |Listing(dir, keywords, keyword)| == multiset(keywords)[keyword] * |Searcher.Matching(dir, [keyword])|
    decreases |dir|
  {
    if |dir| > 0 {
      var n := |dir| - 1;
      ListingLength(dir[..n], keywords, keyword);
      Searcher.ContainsAllSingle(dir[n].content, keyword);
      var c := multiset(keywords)[keyword];
      var m := |Searcher.Matching(dir[..n], [keyword])|;
      if Contains(dir[n].content, keyword) {
        assert |Searcher.Matching(dir, [keyword])| == m + 1;
        assert |Listing(dir, keywords, keyword)| == c * m + c;
        MulSucc(c, m);
      } else {
        assert |Searcher.Matching(dir, [keyword])| == m;
        assert |Listing(dir, keywords, keyword)| == c * m;
      }
    }
  }

  /** Distributes the count over one more matching file; kept apart so that `ListingLength` stays within its resource budget. */
  lemma MulSucc(c: nat, m: nat)
    ensures c * (m + 1) == c * m + c
  {
  }

  /**
   * `IndexFiles` and `SearchFiles` agree: for a keyword that occurs exactly
   * once in `keywords`, its list is what searching for that keyword alone returns.
   */
  lemma {:induction false} ListingSearch(dir: seq<TextFile>, keywords: seq<string>, keyword: string)
    requires multiset(keywords)[keyword] == 1
    ensures Listing(dir, keywords, keyword) == Searcher.Matching(dir, [keyword])
    decreases |dir|
  {
    if |dir| > 0 {
      var n := |dir| - 1;
      ListingSearch(dir[..n], keywords, keyword);
      Searcher.ContainsAllSingle(dir[n].content, keyword);
      assert Repeat(dir[n].filePath, 1) == [dir[n].filePath];
    }
  }

  /** With a keyword list free of duplicates, the dictionary entry for each keyword is the single-keyword search result. */
  lemma IndexAgreesWithSearch(dir: seq<TextFile>, keywords: seq<string>, keyword: string)
    requires multiset(keywords)[keyword] == 1
    ensures Lookup(Build(dir, keywords), keyword) == Searcher.Matching(dir, [keyword])
  {
    BuildListing(dir, keywords, keyword);
    ListingSearch(dir, keywords, keyword);
  }
}
