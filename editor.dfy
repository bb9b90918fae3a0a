/**
 * `TextFileEditor`: a console editor whose every create, open and save
 * records the file's text as the originator's state and pushes one memento
 * of it; `Undo` pops the most recent memento and restores it.
 *
 * The static `File` API is modelled by a `FileSystem` object holding a map
 * from path to content, handed to the editor when it is built.
 */
module Editor {
  import opened History

  /** The disk as the `File` calls see it. */
  class FileSystem {
    var files: map<string, string>

    constructor (files: map<string, string>)
      ensures this.files == files
    {
      this.files := files;
    }

    /** `File.Create(path).Close()`: creates the file, or truncates an existing one, leaving it empty. */
    method Create(path: string)
      modifies this
      ensures files == old(files)[path := ""]
    {
      files := files[path := ""];
    }

    method Exists(path: string) returns (b: bool)
      ensures b <==> path in files
    {
      b := path in files;
    }

    /** `File.ReadAllText`; every call in the editor is on a path known to exist. */
    method ReadAllText(path: string) returns (text: string)
      requires path in files
      ensures text == files[path]
    {
      text := files[path];
    }

    /** `File.WriteAllText`: creates or overwrites the file with `content`. */
    method WriteAllText(path: string, content: string)
      modifies this
      ensures files == old(files)[path := content]
    {
      files := files[path := content];
    }
  }

  /** Everything the editor's operations read or change: the originator's state, the memento stack (top last) and the disk. */
  datatype Session = Session(state: Option<string>, history: seq<Memento>, files: map<string, string>)

  /** `r` is `s` with exactly one memento pushed, and that memento holds `r`'s state. */
  ghost predicate PushedOne(s: Session, r: Session)
  {
    && |r.history| == |s.history| + 1
    && r.history[..|s.history|] == s.history
    && r.history[|s.history|].GetState() == r.state
  }

  /** `CreateNewFile`: the file becomes empty, and the empty text is the new state and the new top memento. */
  function CreateStep(s: Session, path: string): (r: Session)
    ensures path in r.files && r.files == s.files[path := ""]
    ensures r.state == Some(r.files[path]) && PushedOne(s, r)
  {
    var text := "";
    Session(Some(text), s.history + [Memento(Some(text))], s.files[path := text])
  }

  /** `OpenFile`: an existing file's text becomes the state and is pushed; a missing path changes nothing. */
  function OpenStep(s: Session, path: string): (r: Session)
    ensures path !in s.files ==> r == s
    ensures path in s.files ==> r.files == s.files && r.state == Some(s.files[path]) && PushedOne(s, r)
  {
    if path !in s.files then s
    else
      var text := s.files[path];
      Session(Some(text), s.history + [Memento(Some(text))], s.files)
  }

  /** `SaveFile`: the file is written, and the text read back is the new state and the new top memento. */
  function SaveStep(s: Session, path: string, content: string): (r: Session)
    ensures path in r.files && r.files == s.files[path := content]
    ensures r.state == Some(content) && PushedOne(s, r)
  {
    var files := s.files[path := content];
    var text := files[path];
    Session(Some(text), s.history + [Memento(Some(text))], files)
  }

  /** `Undo`: pops the top memento and restores its state; the disk is left alone. On an empty history it fails. */
  function UndoStep(s: Session): (r: Result<Session>)
    ensures r.Err? <==> s.history == []
    ensures r.Err? ==> r.error == EmptyStack
    ensures r.Ok? ==> var n := |s.history| - 1;
      r.value == Session(s.history[n].GetState(), s.history[..n], s.files)
  {
    if s.history == [] then Err(EmptyStack)
    else
      var top := s.history[|s.history| - 1];
      Ok(Session(top.GetState(), s.history[..|s.history| - 1], s.files))
  }

  /** `k` calls of `Undo` in a row; the first failure ends the run. */
  function UndoTimes(s: Session, k: nat): (r: Result<Session>)
    decreases k
  {
    if k == 0 then Ok(s)
    else
      match UndoStep(s)
      case Err(e) => Err(e)
      case Ok(next) => UndoTimes(next, k - 1)
  }

  /**
   * An undo straight after `SaveFile(path, content)` pops the memento that
   * save pushed: the state is still `content`, the history is back to what it
   * was, and the file keeps the saved text. It does not return to the earlier state.
   */
  lemma UndoAfterSave(s: Session, path: string, content: string)
    ensures UndoStep(SaveStep(s, path, content)) == Ok(Session(Some(content), s.history, s.files[path := content]))
  {
    var r := SaveStep(s, path, content);
    assert r.history[..|s.history|] == s.history;
  }

  /**
   * The history is a LIFO stack: `k` undos pop the top `k` mementos and leave
   * the state of the last one popped; one undo more than there are mementos fails.
   */
  lemma {:induction false} UndoRewinds(s: Session, k: nat)
    ensures k <= |s.history| ==>
      var n := |s.history| - k;
      UndoTimes(s, k) == Ok(Session(if k == 0 then s.state else s.history[n].GetState(), s.history[..n], s.files))
    ensures k > |s.history| ==> UndoTimes(s, k) == Err(EmptyStack)
    decreases k
  {
    if k == 0 {
      assert s.history[..|s.history|] == s.history;
    } else if s.history != [] {
      var m := |s.history| - 1;
      var next := Session(s.history[m].GetState(), s.history[..m], s.files);
      UndoRewinds(next, k - 1);
      if k <= |s.history| {
        assert s.history[..m][..m - (k - 1)] == s.history[..|s.history| - k];
        if k > 1 {
          assert s.history[..m][m - (k - 1)] == s.history[|s.history| - k];
        }
      }
    }
  }

  /**
   * After two saves, one undo leaves the second saved text as the state and
   * a second undo the first: the saved texts come back, the latest first.
   */
  lemma TwoSavesTwoUndos(s: Session, p1: string, c1: string, p2: string, c2: string)
    ensures var r := SaveStep(SaveStep(s, p1, c1), p2, c2);
      && UndoTimes(r, 1) == Ok(Session(Some(c2), s.history + [Memento(Some(c1))], r.files))
      && UndoTimes(r, 2) == Ok(Session(Some(c1), s.history, r.files))
  {
    var r1 := SaveStep(s, p1, c1);
    var r := SaveStep(r1, p2, c2);
    UndoRewinds(r, 1);
    UndoRewinds(r, 2);
    assert r.history == s.history + [Memento(Some(c1)), Memento(Some(c2))];
    assert r.history[..|r.history| - 1] == s.history + [Memento(Some(c1))];
    assert r.history[..|r.history| - 2] == s.history;
  }

  class TextFileEditor {
    const originator: Originator
    const caretaker: Caretaker
    const disk: FileSystem

    /** The editor's state as a `Session` value. */
    function Current(): Session
      reads originator, caretaker, disk
    {
      Session(originator.state, caretaker.mementos, disk.files)
    }

    constructor (disk: FileSystem)
      ensures this.disk == disk && fresh(originator) && fresh(caretaker)
      ensures Current() == Session(None, [], disk.files)
    {
      originator := new Originator();
      caretaker := new Caretaker();
      this.disk := disk;
    }

    method CreateNewFile(filePath: string)
      modifies originator, caretaker, disk
      ensures Current() == CreateStep(old(Current()), filePath)
    {
      disk.Create(filePath);
      var text := disk.ReadAllText(filePath);
      originator.SetState(text);
      var m := originator.Save();
      caretaker.SaveState(m);
    }

    method OpenFile(filePath: string)
      modifies originator, caretaker
      ensures Current() == OpenStep(old(Current()), filePath)
    {
      var found := disk.Exists(filePath);
      if found {
        var text := disk.ReadAllText(filePath);
        originator.SetState(text);
        var m := originator.Save();
        caretaker.SaveState(m);
      }
    }

    method SaveFile(filePath: string, content: string)
      modifies originator, caretaker, disk
      ensures Current() == SaveStep(old(Current()), filePath, content)
    {
      disk.WriteAllText(filePath, content);
      var text := disk.ReadAllText(filePath);
      originator.SetState(text);
      var m := originator.Save();
      caretaker.SaveState(m);
    }

    /** Pops and restores one memento; the failure of an empty stack is passed on to the caller. */
    method Undo() returns (r: Result<()>)
      modifies originator, caretaker
      ensures match UndoStep(old(Current()))
        case Ok(next) => r == Ok(()) && Current() == next
        case Err(e) => r == Err(e) && Current() == old(Current())
    {
      var popped := caretaker.RestoreState();
      match popped
      case Err(e) =>
        r := Err(e);
      case Ok(m) =>
        originator.Restore(m);
        r := Ok(());
    }
  }
}
