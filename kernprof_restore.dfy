/**
  kernprof's `_restore_list` context manager (used around `main` for `sys.argv` and
  `sys.path`): it copies the list on entry and writes the copy back into the same list object
  on exit. It is a generator-based context manager without `try`/`finally`, so the write-back
  happens only when the block exits normally.
 */
module KernprofRestore {

  /** A Python list, updated in place. */
  class PyList<T> {
    var items: seq<T>

    constructor (items: seq<T>)
      ensures this.items == items
    {
      this.items := items;
    }

    /** `lst.append(x)`. */
    method Append(x: T)
      modifies this
      ensures items == old(items) + [x]
    {
      items := items + [x];
    }

    /** `lst[:] = xs`. */
    method AssignSlice(xs: seq<T>)
      modifies this
      ensures items == xs
    {
      items := xs;
    }
  }

  /** One use of `_restore_list(lst)`: the list it guards and the copy taken on entry. */
  class RestoreList<T> {
    const lst: PyList<T>
    /** `old`, the copy taken on entry. */
    var saved: seq<T>
    /** The generator has run up to its `yield`. */
    var entered: bool

    constructor (lst: PyList<T>)
      ensures this.lst == lst && !entered
    {
      this.lst := lst;
      saved := [];
      entered := false;
    }

    /** `__enter__`: `old = lst.copy()`; the list itself is left alone. */
    method Enter()
      requires !entered
      modifies this
      ensures entered && saved == lst.items
    {
      saved := lst.items;
      entered := true;
    }

    /**
      `__exit__`: on a normal exit `lst[:] = old` restores the contents in place; when the block
      raised, the exception is thrown into the generator at its `yield` and the list keeps
      whatever the block left in it.
     */
    method Exit(raised: bool)
      requires entered
      modifies lst
      ensures !raised ==> lst.items == saved
      ensures raised ==> lst.items == old(lst.items)
    {
      if !raised {
        lst.AssignSlice(saved);
      }
    }
  }

  /** The doctest of `_restore_list`: appends and a slice assignment inside the block are undone. */
  method RestoreListExample()
  {
    var l := new PyList([1, 2, 3]);
    var ctx := new RestoreList(l);
    ctx.Enter();
    assert l.items == [1, 2, 3];
    l.Append(4);
    assert l.items == [1, 2, 3, 4];
    l.AssignSlice([5, 6]);
    assert l.items == [5, 6];
    ctx.Exit(false);
    assert l.items == [1, 2, 3];
  }
}
