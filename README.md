# Text file toolkit: index, search and undo history

A Dafny model of the sequential logic in `Program.cs`, a console toolkit for
text files:

- **Keyword index** (`FileIndexer.IndexFiles`): for every file of a directory
  and every keyword the file contains, append the file's path to that
  keyword's list in a dictionary. A key is created only when its first
  matching file is found, and a keyword listed twice makes every matching
  path appear twice under it.
- **All-keywords search** (`TextFileSearcher.SearchFiles`): the paths, in
  enumeration order, of the files whose content contains every keyword.
- **Memento undo history** (`Originator`, `Memento`, `Caretaker` and the
  bookkeeping in `TextFileEditor`): each create, open or save sets the
  originator's state to the file's text and pushes one immutable snapshot of
  it on a stack; `Undo` pops the top snapshot and restores it.

The directory a search or an index walks is a sequence of `TextFile(filePath,
content)` values in the order `Directory.GetFiles` enumerates them, each with
the text `File.ReadAllText` returns. `string.Contains` is ordinal substring
containment (`Text.Contains`, proved equal to "occurs at some position"), so
the empty keyword is contained in every file. The editor's disk is a
`FileSystem` object holding a map from path to content, handed to the editor
when it is built. Every editor operation is proved against a pure `Session`
step (`CreateStep`, `OpenStep`, `SaveStep`, `UndoStep`) and the history
properties are lemmas about those steps.

Two behaviours of the source are kept as written and proved:

- `Undo` straight after `SaveFile(p, c)` pops the snapshot that save pushed, so
  the state stays `c`: an undo never returns to the text before the last
  action, and it never touches the file on disk (`Editor.UndoAfterSave`).
- `Undo` on an empty history fails: `Stack.Pop` throws before the `is Memento`
  test is reached. The model returns `Err(EmptyStack)` and changes nothing; in
  the program the exception is uncaught.

Modules: `Text` (text files, `Contains`), `Searcher`, `Indexer`, `History`
(`Memento`, `Originator`, `Caretaker`), `Editor` (`FileSystem`, `Session`,
`TextFileEditor`).

## Model

| member | source | states |
|---|---|---|
| `Text.Contains` | Program.cs:192 | true exactly when the keyword occurs at some position of the content (ordinal comparison) |
| `Text.ContainsEmpty` | Program.cs:63 | the empty keyword is contained in every content |
| `Searcher.SearchFiles` | Program.cs:57-69 | the loop returns exactly the file-by-file filter `Matching` of the listing |
| `Searcher.MatchingMembership` | Program.cs:60-66 | a path is returned iff some file with that path contains every keyword |
| `Searcher.MatchingAppend` | Program.cs:60-68 | searching `a + b` returns the results for `a` followed by those for `b`: enumeration order is kept |
| `Searcher.MatchingSingle` | Program.cs:62-66 | a single file contributes its path exactly when it contains every keyword |
| `Searcher.ContainsAll` | Program.cs:63 | true exactly when every keyword of the list is contained in the content; true for an empty list |
| `Searcher.Matching` | Program.cs:59-68 | the file-by-file filter yields at most one path per enumerated file |
| `Searcher.MatchingNoKeywords` | Program.cs:63 | with no keywords every path is returned, in order |
| `Searcher.ContainsAllSingle` | Program.cs:63 | the all-keywords test on one keyword is plain containment |
| `Indexer.Record` | Program.cs:192-198 | one inner-loop pass adds the keyword as a key exactly when the content contains it (keeping an existing key) and changes no other entry |
| `Indexer.Build` | Program.cs:185-203 | every key of the dictionary is one of the keywords |
| `Indexer.IndexFiles` | Program.cs:183-204 | the nested loops build exactly the dictionary `Build` gives |
| `Indexer.RecordEffect` | Program.cs:192-198 | one pass of the inner loop creates the key on the first match and appends the path to that keyword's list only |
| `Indexer.RecordAllKeys` | Program.cs:190-200 | one file's inner loop creates a key only for a keyword of the list that the content contains |
| `Indexer.RecordAllLists` | Program.cs:190-200 | one file's inner loop appends its path to a keyword's list once per occurrence of that keyword in the list |
| `Indexer.BuildListing` | Program.cs:185-203 | the list under each keyword equals the reference listing, and the key exists iff that listing is non-empty |
| `Indexer.ListingMembership` | Program.cs:187-199 | a path is listed under a keyword iff the keyword is in the list and a file with that path contains it |
| `Indexer.IndexMembership` | Program.cs:187-199 | `p in index[k]` iff `k` is one of the keywords and a file with path `p` contains `k` |
| `Indexer.IndexKeys` | Program.cs:194-198 | a key exists iff it is one of the keywords and some file contains it; no list is empty |
| `Indexer.ListingLength` | Program.cs:190-198 | a keyword's list has (occurrences of it in the keywords) x (matching files) entries, so duplicate keywords give duplicate paths |
| `Indexer.ListingSearch` | Program.cs:187-199 | for a keyword listed once, its listing is the single-keyword search result, in enumeration order |
| `Indexer.IndexAgreesWithSearch` | Program.cs:187-199 | for a keyword listed once, the dictionary entry equals `SearchFiles` for that keyword alone |
| `History.Memento.GetState` | Program.cs:99-111 | returns the state captured at construction: a memento is determined by the state it returns |
| `History.Originator.constructor` | Program.cs:75 | the state starts out null |
| `History.Originator.SetState` | Program.cs:77-85 | the state becomes the assigned text |
| `History.Originator.Save` | Program.cs:87-90 | the memento holds the current state |
| `History.Originator.Restore` | Program.cs:92-96 | the state becomes exactly the memento's state |
| `History.Caretaker.constructor` | Program.cs:116 | the stack starts empty |
| `History.Caretaker.SaveState` | Program.cs:118-121 | the memento is pushed on top, the rest unchanged |
| `History.Caretaker.RestoreState` | Program.cs:123-126 | returns and removes the top memento; on an empty stack fails with nothing changed |
| `History.LastInFirstOut` | Program.cs:116-126 | two pushes pop in the opposite order, and a further pop fails |
| `History.SnapshotIsImmutable` | Program.cs:87-111 | a memento keeps the state it captured after later assignments, and restoring it brings that state back |
| `Editor.FileSystem.Create` | Program.cs:143 | the file exists afterwards and is empty |
| `Editor.FileSystem.Exists` | Program.cs:151 | true iff the path is on the disk |
| `Editor.FileSystem.ReadAllText` | Program.cs:145 | returns the file's content |
| `Editor.FileSystem.WriteAllText` | Program.cs:165 | the file's content becomes the given text, other files unchanged |
| `Editor.CreateStep` | Program.cs:141-147 | the file becomes empty, the state is its text and exactly one memento of that state is pushed |
| `Editor.OpenStep` | Program.cs:149-161 | on an existing path the state becomes its text and exactly one memento is pushed; on a missing path nothing changes |
| `Editor.SaveStep` | Program.cs:163-169 | the file holds the content, the state is that content and exactly one memento of it is pushed |
| `Editor.UndoStep` | Program.cs:171-177 | pops the top memento and restores its state, disk unchanged; fails exactly when the history is empty |
| `Editor.UndoAfterSave` | Program.cs:163-177 | undo right after a save leaves the saved content as state and the history as before the save |
| `Editor.UndoRewinds` | Program.cs:171-177 | `k` undos pop the top `k` mementos in LIFO order and restore the last popped; more undos than mementos fail |
| `Editor.TwoSavesTwoUndos` | Program.cs:163-177 | after two saves, undos return the second text, then the first |
| `Editor.TextFileEditor.constructor` | Program.cs:135-139 | a fresh originator with null state and a fresh empty caretaker |
| `Editor.TextFileEditor.CreateNewFile` | Program.cs:141-147 | the new editor state is `CreateStep` of the old one |
| `Editor.TextFileEditor.OpenFile` | Program.cs:149-161 | the new editor state is `OpenStep` of the old one |
| `Editor.TextFileEditor.SaveFile` | Program.cs:163-169 | the new editor state is `SaveStep` of the old one |
| `Editor.TextFileEditor.Undo` | Program.cs:171-177 | on a non-empty history the new state is `UndoStep` of the old one; on an empty one it fails and nothing changes |

## Left out

- Binary and XML serialization of `TextFile` (Program.cs:16-51): thin wrappers over `BinaryFormatter` and `XmlSerializer`, library code that is not part of this model. `TextFile` survives only as the (path, content) value the search and index walk.
- Directory enumeration and the `*.txt` pattern (Program.cs:60, 187): the listing is an input sequence, already filtered and in enumeration order.
- File system failures: missing directories, invalid paths, permissions, sharing violations and the exceptions `File.Create`, `File.ReadAllText` and `File.WriteAllText` raise for them. Reading a file right after writing it is assumed to return the text written (no encoding effects).
- `Editor.FileSystem.ReadAllText`: requires the path to exist instead of modelling the missing-file exception, because every call in the editor is on a path just created, just written or just checked with `File.Exists`.
- `History.Originator.SetState`: the setter takes a non-null text; a null assignment cannot arise from the editor, whose values all come from `File.ReadAllText`.
- Text encoding: a Dafny `string` is a sequence of Unicode scalar values, while a C# string is a sequence of UTF-16 code units. Ordinal `Contains` gives the same answer on well-formed text, but a keyword or content holding a lone surrogate cannot be represented.
- `Indexer.RecordAll` (Program.cs:190-200) carries no contract of its own: which keys it creates and what it appends are stated by `Indexer.RecordAllKeys` and `Indexer.RecordAllLists`.
- Null arguments: a null keyword (`Contains(null)` throws) and null directory or path strings are not modelled.
- The `is Memento` test in `Undo` (Program.cs:173): every pushed memento is a non-null object, so the test always succeeds after a successful pop and the model has no branch for it.
- All console output, `Console.ReadLine` input and the interactive menu loop in `Main` (Program.cs:83, 95, 144-166, 207-255): user-interface plumbing.
