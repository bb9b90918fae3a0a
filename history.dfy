/**
 * The Memento pattern: an `Originator` whose state can be captured in an
 * immutable `Memento`, and a `Caretaker` that keeps mementos on a stack.
 */
module History {

  /** A C# string reference: `None` stands for `null`, the value of a field never assigned. */
  datatype Option<+T> = None | Some(value: T)

  /** `Stack<T>.Pop` on an empty stack throws `InvalidOperationException`. */
  datatype StackError = EmptyStack

  datatype Result<+T> = Ok(value: T) | Err(error: StackError)

  /** A read-only snapshot of an originator's state. */
  datatype Memento = Memento(state: Option<string>)
  {
    /** The state captured when the memento was made; a memento is determined by it. */
    function GetState(): (s: Option<string>)
      ensures Memento(s) == this
    {
      state
    }
  }

  class Originator {
    var state: Option<string>

    /** The field starts out as `null`. */
    constructor ()
      ensures state == None
    {
      state := None;
    }

    /** The `State` property setter (its console message is not modelled). */
    method SetState(value: string)
      modifies this
      ensures state == Some(value)
    {
      state := Some(value);
    }

    /** Captures the current state; a `Memento` is a value, so later changes to `state` cannot reach it. */
    method Save() returns (m: Memento)
      ensures m.GetState() == state
    {
      m := Memento(state);
    }

    /** Sets the state to exactly the one the memento holds. */
    method Restore(m: Memento)
      modifies this
      ensures state == m.GetState()
    {
      state := m.GetState();
    }
  }

  class Caretaker {
    /** The `Stack<Memento>`: the bottom first, the top (the most recent push) last. */
    var mementos: seq<Memento>

    constructor ()
      ensures mementos == []
    {
      mementos := [];
    }

    method SaveState(m: Memento)
      modifies this
      ensures mementos == old(mementos) + [m]
    {
      mementos := mementos + [m];
    }

    /** Pops the most recent memento not yet popped; on an empty stack it fails and changes nothing. */
    method RestoreState() returns (r: Result<Memento>)
      modifies this
      ensures old(mementos) == [] ==> r == Err(EmptyStack) && mementos == old(mementos)
      ensures old(mementos) != [] ==>
        r == Ok(old(mementos)[|old(mementos)| - 1]) && mementos == old(mementos)[..|old(mementos)| - 1]
    {
      if mementos == [] {
        r := Err(EmptyStack);
      } else {
        r := Ok(mementos[|mementos| - 1]);
        mementos := mementos[..|mementos| - 1];
      }
    }
  }

  /** Two pushes come back in the opposite order, and a third pop on the emptied stack fails. */
  method LastInFirstOut(a: Memento, b: Memento) returns (first: Result<Memento>, second: Result<Memento>, third: Result<Memento>)
    ensures first == Ok(b) && second == Ok(a) && third == Err(EmptyStack)
  {
    var caretaker := new Caretaker();
    caretaker.SaveState(a);
    caretaker.SaveState(b);
    first := caretaker.RestoreState();
    second := caretaker.RestoreState();
    third := caretaker.RestoreState();
  }

  /** A memento taken before the state changes still holds the old state, and restoring it brings that state back. */
  method SnapshotIsImmutable(before: string, after: string) returns (saved: Option<string>, restored: Option<string>)
    ensures saved == Some(before) && restored == Some(before)
  {
    var originator := new Originator();
    originator.SetState(before);
    var m := originator.Save();
    originator.SetState(after);
    saved := m.GetState();
    originator.Restore(m);
    restored := originator.state;
  }
}
