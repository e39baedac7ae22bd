/**
 * Linear undo/redo history over snapshots of the editable document.
 *
 * `history` is the undo stack and `redo` the redo stack, both most-recent-last;
 * `current` is the document on screen. As a reference model the three form
 * one linear list of versions, oldest first, with a cursor on the current one:
 * undo and redo move the cursor, a new edit cuts the list after the cursor.
 */
module History {

  datatype Timeline<T> = Timeline(history: seq<T>, current: T, redo: seq<T>)

  function Reverse<T>(s: seq<T>): (r: seq<T>)
    ensures |r| == |s|
  {
    if s == [] then [] else Reverse(s[1..]) + [s[0]]
  }

  lemma {:induction false} ReverseAppend<T>(s: seq<T>, x: T)
    ensures Reverse(s + [x]) == [x] + Reverse(s)
  {
    if s != [] {
      assert (s + [x])[1..] == s[1..] + [x];
      ReverseAppend(s[1..], x);
    }
  }

  lemma {:induction false} ReverseReverse<T>(s: seq<T>)
    ensures Reverse(Reverse(s)) == s
  {
    if s != [] {
      ReverseAppend(Reverse(s[1..]), s[0]);
      ReverseReverse(s[1..]);
    }
  }

  /** All versions, oldest first: the undo stack, the current one, then the redo stack from its top down. */
  function Versions<T>(t: Timeline<T>): (vs: seq<T>)
    ensures |vs| == |t.history| + 1 + |t.redo|
  {
    t.history + [t.current] + Reverse(t.redo)
  }

  /** The index of the current version in Versions(t). */
  function Cursor<T>(t: Timeline<T>): nat {
    |t.history|
  }

  /** The reference model is faithful: the versions and the cursor determine the timeline. */
  lemma VersionsDetermine<T>(s: Timeline<T>, t: Timeline<T>)
    requires Versions(s) == Versions(t) && Cursor(s) == Cursor(t)
    ensures s == t
  {
    var vs := Versions(s);
    var k := Cursor(s);
    assert s.history == vs[..k] == t.history;
    assert s.current == vs[k] == t.current;
    assert Reverse(s.redo) == vs[k + 1..] == Reverse(t.redo);
    ReverseReverse(s.redo);
    ReverseReverse(t.redo);
  }

  /** The undo stack is the part of the version list before the cursor. */
  lemma HistoryBeforeCursor<T>(t: Timeline<T>)
    ensures Versions(t)[..Cursor(t)] == t.history
    ensures Versions(t)[Cursor(t)] == t.current
  {
  }

  /** Snapshot the current document: push it on the undo stack, discard the redo stack. */
  function Save<T>(t: Timeline<T>): (r: Timeline<T>)
    ensures Cursor(r) == Cursor(t) + 1 && r.history[Cursor(t)] == t.current
    ensures r.current == t.current && r.redo == []
  {
    Timeline(t.history + [t.current], t.current, [])
  }

  /** An edit: snapshot, then replace the current document by `doc`. */
  function Commit<T>(t: Timeline<T>, doc: T): (r: Timeline<T>)
    ensures Cursor(r) == Cursor(t) + 1 && r.history[Cursor(t)] == t.current
    ensures r.current == doc && r.redo == []
  {
    Save(t).(current := doc)
  }

  /** Undo: restore the top of the undo stack, pushing the current document on the redo stack. */
  function Undo<T>(t: Timeline<T>): (r: Timeline<T>)
    ensures |t.history| == 0 ==> r == t
    ensures |t.history| > 0 ==>
              && Cursor(r) == Cursor(t) - 1
              && r.current == t.history[Cursor(t) - 1]
              && |r.redo| == |t.redo| + 1 && r.redo[|t.redo|] == t.current
  {
    if |t.history| == 0 then t
    else
      var n := |t.history|;
      Timeline(t.history[..n - 1], t.history[n - 1], t.redo + [t.current])
  }

  /** Redo: the mirror image of Undo. */
  function Redo<T>(t: Timeline<T>): (r: Timeline<T>)
    ensures |t.redo| == 0 ==> r == t
    ensures |t.redo| > 0 ==>
              && Cursor(r) == Cursor(t) + 1
              && r.history[Cursor(t)] == t.current
              && r.current == t.redo[|t.redo| - 1]
              && |r.redo| == |t.redo| - 1
  {
    if |t.redo| == 0 then t
    else
      var m := |t.redo|;
      Timeline(t.history + [t.current], t.redo[m - 1], t.redo[..m - 1])
  }

  /**
   * A snapshot repeats the current version right after the cursor, keeps
   * every earlier version and drops every later one.
   */
  lemma SaveDropsFuture<T>(t: Timeline<T>)
    ensures Versions(Save(t)) == Versions(t)[..Cursor(t) + 1] + [t.current]
    ensures Cursor(Save(t)) == Cursor(t) + 1
    ensures Save(t).current == t.current
  {
    HistoryBeforeCursor(t);
    assert Versions(t)[..Cursor(t) + 1] == t.history + [t.current];
  }

  /**
   * An edit keeps the versions up to the cursor, drops the undone ones and
   * makes `doc` the last version, with the cursor on it: nothing is left to redo.
   */
  lemma CommitDropsFuture<T>(t: Timeline<T>, doc: T)
    ensures Versions(Commit(t, doc)) == Versions(t)[..Cursor(t) + 1] + [doc]
    ensures Cursor(Commit(t, doc)) == Cursor(t) + 1
    ensures Commit(t, doc).current == doc && Commit(t, doc).redo == []
  {
    HistoryBeforeCursor(t);
    assert Versions(t)[..Cursor(t) + 1] == t.history + [t.current];
  }

  /**
   * With an empty undo stack nothing changes; otherwise the cursor moves one
   * version back and the list of versions is unchanged.
   */
  lemma UndoStepsBack<T>(t: Timeline<T>)
    ensures |t.history| == 0 ==> Undo(t) == t
    ensures |t.history| > 0 ==> Versions(Undo(t)) == Versions(t) && Cursor(Undo(t)) == Cursor(t) - 1
  {
    if |t.history| > 0 {
      var n := |t.history|;
      ReverseAppend(t.redo, t.current);
      assert t.history == t.history[..n - 1] + [t.history[n - 1]];
    }
  }

  /**
   * With an empty redo stack nothing changes; otherwise the cursor moves one
   * version forward and the list of versions is unchanged.
   */
  lemma RedoStepsForward<T>(t: Timeline<T>)
    ensures |t.redo| == 0 ==> Redo(t) == t
    ensures |t.redo| > 0 ==> Versions(Redo(t)) == Versions(t) && Cursor(Redo(t)) == Cursor(t) + 1
  {
    if |t.redo| > 0 {
      var m := |t.redo|;
      assert t.redo == t.redo[..m - 1] + [t.redo[m - 1]];
      ReverseAppend(t.redo[..m - 1], t.redo[m - 1]);
    }
  }

  /** Undo followed immediately by redo restores the timeline exactly. */
  lemma UndoThenRedo<T>(t: Timeline<T>)
    requires |t.history| > 0
    ensures Redo(Undo(t)) == t
  {
    UndoStepsBack(t);
    RedoStepsForward(Undo(t));
    VersionsDetermine(Redo(Undo(t)), t);
  }

  /** Redo followed immediately by undo restores the timeline exactly. */
  lemma RedoThenUndo<T>(t: Timeline<T>)
    requires |t.redo| > 0
    ensures Undo(Redo(t)) == t
  {
    RedoStepsForward(t);
    UndoStepsBack(Redo(t));
    VersionsDetermine(Undo(Redo(t)), t);
  }

  /** Undo right after an edit brings back the document and undo stack from before it; only the edit can be redone. */
  lemma UndoAfterCommit<T>(t: Timeline<T>, doc: T)
    ensures Undo(Commit(t, doc)) == Timeline(t.history, t.current, [doc])
  {
    assert (t.history + [t.current])[..|t.history|] == t.history;
  }

  /** Any edit invalidates the forward history, even right after an undo. */
  lemma EditAfterUndoClearsRedo<T>(t: Timeline<T>, doc: T)
    requires |t.history| > 0
    ensures |Undo(t).redo| == |t.redo| + 1
    ensures Redo(Commit(Undo(t), doc)) == Commit(Undo(t), doc)
  {
  }

  /** `k` undos in a row. */
  function Undos<T>(t: Timeline<T>, k: nat): Timeline<T>
    decreases k
  {
    if k == 0 then t else Undos(Undo(t), k - 1)
  }

  /** `k` redos in a row. */
  function Redos<T>(t: Timeline<T>, k: nat): Timeline<T>
    decreases k
  {
    if k == 0 then t else Redos(Redo(t), k - 1)
  }

  /** Edits one after another, `docs[0]` first. */
  function Commits<T>(t: Timeline<T>, docs: seq<T>): Timeline<T>
    decreases |docs|
  {
    if docs == [] then t else Commit(Commits(t, docs[..|docs| - 1]), docs[|docs| - 1])
  }

  lemma {:induction false} UndosMoveCursor<T>(t: Timeline<T>, k: nat)
    requires k <= |t.history|
    ensures Versions(Undos(t, k)) == Versions(t)
    ensures Cursor(Undos(t, k)) == Cursor(t) - k
    decreases k
  {
    if k > 0 {
      UndoStepsBack(t);
      UndosMoveCursor(Undo(t), k - 1);
    }
  }

  lemma {:induction false} RedosMoveCursor<T>(t: Timeline<T>, k: nat)
    requires k <= |t.redo|
    ensures Versions(Redos(t, k)) == Versions(t)
    ensures Cursor(Redos(t, k)) == Cursor(t) + k
    decreases k
  {
    if k > 0 {
      RedoStepsForward(t);
      assert |Redo(t).redo| == |t.redo| - 1;
      RedosMoveCursor(Redo(t), k - 1);
    }
  }

  /** `k` undos followed by `k` redos restore the timeline, for any `k` up to the undo depth. */
  lemma UndosThenRedos<T>(t: Timeline<T>, k: nat)
    requires k <= |t.history|
    ensures Redos(Undos(t, k), k) == t
  {
    var u := Undos(t, k);
    UndosMoveCursor(t, k);
    assert |u.redo| == |t.redo| + k;
    RedosMoveCursor(u, k);
    VersionsDetermine(Redos(u, k), t);
  }

  lemma {:induction false} CommitsExtend<T>(t: Timeline<T>, docs: seq<T>)
    ensures docs != [] ==> Versions(Commits(t, docs)) == Versions(t)[..Cursor(t) + 1] + docs
    ensures Cursor(Commits(t, docs)) == Cursor(t) + |docs|
    decreases |docs|
  {
    if docs != [] {
      var init := docs[..|docs| - 1];
      var last := docs[|docs| - 1];
      var before := Commits(t, init);
      CommitsExtend(t, init);
      CommitDropsFuture(before, last);
      if init == [] {
        assert docs == [last];
        return;
      }
      var vs := Versions(before);
      assert vs == Versions(t)[..Cursor(t) + 1] + init;
      assert |vs| == Cursor(before) + 1;
      assert vs[..Cursor(before) + 1] == vs;
      assert Versions(Commits(t, docs)) == vs + [last];
      assert init + [last] == docs;
    }
  }

  /**
   * N edits followed by N undos bring back the document and undo stack from
   * before the edits; N redos after that bring back the state after the edits.
   */
  lemma EditsThenUndosThenRedos<T>(t: Timeline<T>, docs: seq<T>)
    ensures Undos(Commits(t, docs), |docs|).current == t.current
    ensures Undos(Commits(t, docs), |docs|).history == t.history
    ensures Redos(Undos(Commits(t, docs), |docs|), |docs|) == Commits(t, docs)
  {
    if docs == [] {
      return;
    }
    var c := Commits(t, docs);
    var k := Cursor(t);
    CommitsExtend(t, docs);
    UndosMoveCursor(c, |docs|);
    var u := Undos(c, |docs|);
    var vs := Versions(t)[..k + 1] + docs;
    assert Versions(u) == vs && Cursor(u) == k;
    HistoryBeforeCursor(u);
    HistoryBeforeCursor(t);
    assert vs[..k] == Versions(t)[..k];
    assert vs[k] == Versions(t)[k];
    UndosThenRedos(c, |docs|);
  }
}
