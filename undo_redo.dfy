/**
 * The drawing history as a value: `commands` (done, oldest first) and
 * `redoCommands` (undone, most recently undone last), and the operations
 * the clear, undo and redo buttons and a press perform on them.
 *
 * The key notion is the timeline `done + Reverse(undone)`: undo and redo
 * only move the boundary between the two stacks along it, one step at a time.
 */
module UndoRedo {

  datatype Stacks<T> = Stacks(done: seq<T>, undone: seq<T>)

  function Reverse<T>(s: seq<T>): (r: seq<T>)
    ensures |r| == |s|
    ensures forall i :: 0 <= i < |s| ==> r[i] == s[|s| - 1 - i]
  {
    if s == [] then [] else [s[|s| - 1]] + Reverse(s[..|s| - 1])
  }

  lemma ReverseSnoc<T>(s: seq<T>, x: T)
    ensures Reverse(s + [x]) == [x] + Reverse(s)
  {
    assert (s + [x])[..|s|] == s;
  }

  /** Every command of the history, in the order it was first drawn. */
  function Timeline<T>(h: Stacks<T>): seq<T>
  {
    h.done + Reverse(h.undone)
  }

  /** No command object is in the history twice. */
  ghost predicate Distinct<T>(s: seq<T>)
  {
    forall i, j | 0 <= i < j < |s| :: s[i] != s[j]
  }

  /** The timeline and the size of `done` pin down the history. */
  lemma TimelineDetermines<T>(a: Stacks<T>, b: Stacks<T>)
    requires Timeline(a) == Timeline(b) && |a.done| == |b.done|
    ensures a == b
  {
    var t := Timeline(a);
    assert a.done == t[..|a.done|] == b.done;
    assert Reverse(a.undone) == t[|a.done|..] == Reverse(b.undone);
    ReverseInjective(a.undone, b.undone);
  }

  lemma ReverseInjective<T>(x: seq<T>, y: seq<T>)
    requires Reverse(x) == Reverse(y)
    ensures x == y
  {
    forall j | 0 <= j < |x| ensures x[j] == y[j] {
      var k := |x| - 1 - j;
      assert Reverse(x)[k] == x[j];
      assert Reverse(y)[k] == y[j];
    }
  }

  /** The undo button: the last done command, if any, goes onto the end of `undone`. */
  function Undo<T>(h: Stacks<T>): (r: Stacks<T>)
    ensures Timeline(r) == Timeline(h)
    ensures |r.done| == if h.done == [] then 0 else |h.done| - 1
  {
    if h.done == [] then h
    else
      var n := |h.done|;
      ReverseSnoc(h.undone, h.done[n - 1]);
      assert h.done[..n - 1] + [h.done[n - 1]] == h.done;
      Stacks(h.done[..n - 1], h.undone + [h.done[n - 1]])
  }

  /** The redo button: the last undone command, if any, goes back onto the end of `done`. */
  function Redo<T>(h: Stacks<T>): (r: Stacks<T>)
    ensures Timeline(r) == Timeline(h)
    ensures |r.done| == if h.undone == [] then |h.done| else |h.done| + 1
  {
    if h.undone == [] then h
    else
      var m := |h.undone|;
      assert h.undone[..m - 1] + [h.undone[m - 1]] == h.undone;
      ReverseSnoc(h.undone[..m - 1], h.undone[m - 1]);
      Stacks(h.done + [h.undone[m - 1]], h.undone[..m - 1])
  }

  /** The clear button: the done commands are dropped, the undone ones are kept. */
  function Clear<T>(h: Stacks<T>): (r: Stacks<T>)
    ensures r.done == []
    ensures Timeline(r) == Timeline(h)[|h.done|..]
  {
    Stacks([], h.undone)
  }

  /** A press: the new commands are appended to `done` and the redo history is dropped. */
  function Begin<T>(h: Stacks<T>, created: seq<T>): (r: Stacks<T>)
    ensures Timeline(r) == h.done + created
    ensures r.undone == []
  {
    Stacks(h.done + created, [])
  }

  /** Undo pressed k times. */
  function UndoN<T>(h: Stacks<T>, k: nat): (r: Stacks<T>)
    ensures Timeline(r) == Timeline(h)
    ensures |r.done| == if k <= |h.done| then |h.done| - k else 0
    decreases k
  {
    if k == 0 then h else UndoN(Undo(h), k - 1)
  }

  /** Redo pressed k times. */
  function RedoN<T>(h: Stacks<T>, k: nat): (r: Stacks<T>)
    ensures Timeline(r) == Timeline(h)
    ensures |r.done| == if k <= |h.undone| then |h.done| + k else |h.done| + |h.undone|
    decreases k
  {
    if k == 0 then h else RedoN(Redo(h), k - 1)
  }

  /**
   * Undo on a non-empty history moves the last done command onto the end of
   * `undone`; on an empty one it changes nothing.
   */
  lemma UndoMovesLast<T>(h: Stacks<T>)
    ensures h.done == [] ==> Undo(h) == h
    ensures h.done != [] ==>
      Undo(h) == Stacks(h.done[..|h.done| - 1], h.undone + [h.done[|h.done| - 1]])
  {
    if h.done != [] {
      var n := |h.done|;
      var expected := Stacks(h.done[..n - 1], h.undone + [h.done[n - 1]]);
      ReverseSnoc(h.undone, h.done[n - 1]);
      assert h.done[..n - 1] + [h.done[n - 1]] == h.done;
      TimelineDetermines(Undo(h), expected);
    }
  }

  /**
   * Redo on a non-empty redo stack moves its last command back onto the end
   * of `done`; on an empty one it changes nothing.
   */
  lemma RedoMovesLast<T>(h: Stacks<T>)
    ensures h.undone == [] ==> Redo(h) == h
    ensures h.undone != [] ==>
      Redo(h) == Stacks(h.done + [h.undone[|h.undone| - 1]], h.undone[..|h.undone| - 1])
  {
    if h.undone != [] {
      var m := |h.undone|;
      var expected := Stacks(h.done + [h.undone[m - 1]], h.undone[..m - 1]);
      assert h.undone[..m - 1] + [h.undone[m - 1]] == h.undone;
      ReverseSnoc(h.undone[..m - 1], h.undone[m - 1]);
      TimelineDetermines(Redo(h), expected);
    }
  }

  /** Undo then redo restores both stacks exactly, whenever there was something to undo. */
  lemma RedoAfterUndo<T>(h: Stacks<T>)
    requires h.done != []
    ensures Redo(Undo(h)) == h
  {
    TimelineDetermines(Redo(Undo(h)), h);
  }

  /** Redo then undo restores both stacks exactly, whenever there was something to redo. */
  lemma UndoAfterRedo<T>(h: Stacks<T>)
    requires h.undone != []
    ensures Undo(Redo(h)) == h
  {
    TimelineDetermines(Undo(Redo(h)), h);
  }

  /** k undos followed by k redos restore the history, for any k up to the number of done commands. */
  lemma {:induction false} RedoNAfterUndoN<T>(h: Stacks<T>, k: nat)
    requires k <= |h.done|
    ensures RedoN(UndoN(h, k), k) == h
  {
    var g := UndoN(h, k);
    assert |Timeline(g)| == |g.done| + |g.undone| == |h.done| + |h.undone|;
    TimelineDetermines(RedoN(g, k), h);
  }

  /** After a press nothing is left to redo: starting a command invalidates the redo history. */
  lemma RedoAfterBegin<T>(h: Stacks<T>, created: seq<T>)
    ensures Redo(Begin(h, created)) == Begin(h, created)
    ensures Begin(h, created).done == h.done + created
  {
  }

  /**
   * Clearing keeps the redo history: a redo right after a clear brings back
   * only the most recently undone command.
   */
  lemma RedoAfterClear<T>(h: Stacks<T>)
    requires h.undone != []
    ensures Redo(Clear(h)).done == [h.undone[|h.undone| - 1]]
    ensures Redo(Clear(h)).undone == h.undone[..|h.undone| - 1]
  {
    RedoMovesLast(Clear(h));
  }

  lemma DistinctParts<T>(a: seq<T>, b: seq<T>)
    requires Distinct(a + b)
    ensures Distinct(a) && Distinct(b)
  {
    forall i, j | 0 <= i < j < |a| ensures a[i] != a[j] {
      assert a[i] == (a + b)[i] && a[j] == (a + b)[j];
    }
    forall i, j | 0 <= i < j < |b| ensures b[i] != b[j] {
      assert b[i] == (a + b)[|a| + i] && b[j] == (a + b)[|a| + j];
    }
  }

  lemma DistinctAfterClear<T>(h: Stacks<T>)
    requires Distinct(Timeline(h))
    ensures Distinct(Timeline(Clear(h)))
  {
    var r := Reverse(h.undone);
    assert Timeline(h) == h.done + r;
    DistinctParts(h.done, r);
    assert Timeline(Clear(h)) == [] + r == r;
  }

  lemma DistinctAfterBegin<T>(h: Stacks<T>, c: T)
    requires Distinct(Timeline(h)) && c !in h.done
    ensures Distinct(Timeline(Begin(h, [c])))
  {
    DistinctParts(h.done, Reverse(h.undone));
    var t := h.done + [c];
    assert Timeline(Begin(h, [c])) == t;
    forall i, j | 0 <= i < j < |t| ensures t[i] != t[j] {
      if j < |h.done| {
        assert t[i] == h.done[i] && t[j] == h.done[j];
      } else {
        assert t[j] == c && t[i] == h.done[i];
      }
    }
  }

  lemma DistinctDone<T>(h: Stacks<T>)
    requires Distinct(Timeline(h))
    ensures Distinct(h.done)
  {
    DistinctParts(h.done, Reverse(h.undone));
  }
}
