/** The client and the server, step by step, implement the plain stack. */
module TransactionRefinement {
  import opened Basics
  import opened SavepointServer
  import opened Transactions
  import opened TransactionStack

  // ---------- the chain of unfinished objects ----------

  lemma ChainedIsStacked(s: Client, frames: seq<Frame>)
    requires Chained(s, frames)
    ensures Stacked(frames)
  {
    forall i | 0 <= i < |frames| ensures Stackable(frames, i) {
      assert ChainedAt(s, frames, i);
    }
  }

  /** A new object on top of the chain. */
  lemma ChainedPush(s: Client, frames: seq<Frame>, a: Addr, f: Frame, after: Client)
    requires Chained(s, frames) && a !in s.objects && f.id == a
    requires after.current == Some(a)
    requires after.objects == s.objects[a := Tx(f.kind, true, s.current, true)]
    requires Stackable(frames + [f], |frames|)
    ensures Chained(after, frames + [f])
  {
    var longer := frames + [f];
    forall i | 0 <= i < |longer| ensures ChainedAt(after, longer, i) {
      if i < |frames| {
        assert ChainedAt(s, frames, i);
        assert longer[i] == frames[i] && (i > 0 ==> longer[i - 1] == frames[i - 1]);
      } else {
        assert i > 0 ==> longer[i - 1] == frames[i - 1];
      }
    }
    forall i, j | 0 <= i < j < |longer| ensures longer[i].id != longer[j].id {
      assert ChainedAt(s, frames, i);
    }
    forall b <- after.objects | Open(after.objects[b]) ensures InFrames(longer, b) {
      if b == a {
        assert longer[|frames|].id == a;
      } else {
        assert InFrames(frames, b);
        var i :| 0 <= i < |frames| && frames[i].id == b;
        assert longer[i].id == b;
      }
    }
  }

  lemma OwnedPush(s: Client, a: Addr, kind: Kind, after: Client)
    requires Owned(s, None) && a !in s.objects && (s.current.Some? ==> s.current.value in s.objects)
    requires after.objects == s.objects[a := Tx(kind, true, s.current, true)]
    ensures Owned(after, None)
  {
    forall b <- after.objects ensures Alive(after, b) {
      if b != a && !after.objects[b].held {
        assert Alive(s, b);
        var c :| c in s.objects && s.objects[c].previous == Some(b);
        assert after.objects[c].previous == Some(b);
      }
    }
  }

  lemma TopIsCurrent(s: Client, frames: seq<Frame>)
    requires Chained(s, frames) && frames != []
    ensures ChainedAt(s, frames, |frames| - 1)
    ensures s.current == Some(frames[|frames| - 1].id)
  {
  }

  /** The newest object is finished, or gone, and the one below it is the current one again. */
  lemma ChainedPop(s: Client, frames: seq<Frame>, t: Addr, after: Client)
    requires Chained(s, frames) && frames != [] && t == frames[|frames| - 1].id && t in s.objects
    requires after.current == s.objects[t].previous
    requires after.objects.Keys - {t} == s.objects.Keys - {t}
    requires t in after.objects ==> !Open(after.objects[t])
    requires forall b <- s.objects :: b != t ==> b in after.objects && after.objects[b] == s.objects[b]
    ensures Chained(after, frames[..|frames| - 1])
  {
    var shorter := frames[..|frames| - 1];
    TopIsCurrent(s, frames);
    forall i | 0 <= i < |shorter| ensures ChainedAt(after, shorter, i) {
      assert ChainedAt(s, frames, i) && frames[i].id != t;
      assert frames[i].id in s.objects.Keys - {t};
    }
    forall b <- after.objects | Open(after.objects[b]) ensures InFrames(shorter, b) {
      assert b in after.objects.Keys - {t};
      assert InFrames(frames, b);
      var i :| 0 <= i < |frames| && frames[i].id == b;
      assert shorter[i].id == b;
    }
  }

  /** Removing a finished object. */
  lemma ChainedRemove(s: Client, frames: seq<Frame>, a: Addr)
    requires Chained(s, frames) && a in s.objects && !Open(s.objects[a])
    ensures Chained(s.(objects := s.objects - {a}), frames)
  {
    var after := s.(objects := s.objects - {a});
    forall i | 0 <= i < |frames| ensures ChainedAt(after, frames, i) {
      assert ChainedAt(s, frames, i);
    }
  }

  /** Removing an object may leave the one it pointed to without an owner, and no other. */
  lemma OwnedRemove(s: Client, a: Addr, after: Client)
    requires Owned(s, Some(a)) && a in s.objects && !Alive(s, a)
    requires after.objects == s.objects - {a}
    ensures Owned(after, s.objects[a].previous)
  {
    forall b <- after.objects | Some(b) != s.objects[a].previous ensures Alive(after, b) {
      assert Alive(s, b);
      if !s.objects[b].held {
        var c :| c in s.objects && s.objects[c].previous == Some(b);
        assert c in after.objects && after.objects[c].previous == Some(b);
      }
    }
    forall b <- after.objects | after.objects[b].previous.Some?
      ensures after.objects[b].previous.value in after.objects
    {
      assert !Referenced(s, a) && s.objects[b].previous != Some(a);
    }
  }

  /** An unfinished object that nobody owns is the current one: a younger one would own it. */
  lemma UnownedIsCurrent(s: Client, frames: seq<Frame>, a: Addr)
    requires Chained(s, frames) && a in s.objects && Open(s.objects[a]) && !Alive(s, a)
    ensures frames != [] && frames[|frames| - 1].id == a && s.current == Some(a)
  {
    assert InFrames(frames, a);
    var i :| 0 <= i < |frames| && frames[i].id == a;
    if i + 1 < |frames| {
      assert ChainedAt(s, frames, i + 1);
      assert s.objects[frames[i + 1].id].previous == Some(a);
      assert Referenced(s, a);
    }
  }

  // ---------- destructors ----------

  /** The server after a command, which is not sent while a result is outstanding. */
  function Told(s: Client, c: Option<Command>): Server {
    if s.busy then s.server else ServeIfAny(s.server, c).0
  }

  /** The destructor of the current, unfinished object gives up exactly that transaction. */
  lemma DestroyOpen(s: Client, k: Stack, a: Addr)
    requires Chained(s, k.frames) && Backed(s.server, k)
    requires k.frames != [] && k.Top().id == a && a in s.objects
    ensures var tx := s.objects[a];
            Destroy(s, a) == Client(tx.previous, s.objects - {a}, s.busy, Told(s, RollbackCommand(k.Top().kind, a)))
  {
    TopIsCurrent(s, k.frames);
    ChainedIsStacked(s, k.frames);
    var ended := Reset(s, a);
    assert ended.objects - {a} == s.objects - {a};
    if k.Top().kind.Nested? || Starts(k.Top().kind) {
      NestedInTx(k.frames, |k.frames| - 1);
    }
  }

  lemma BackedGiveUp(s: Client, k: Stack)
    requires Backed(s.server, k) && Stacked(k.frames) && k.frames != []
    ensures Backed(Told(s, RollbackCommand(k.Top().kind, k.Top().id)), k.GiveUp(s.busy))
  {
    if s.busy {
      BackedAbandon(s.server, k);
    } else {
      BackedUndo(s.server, k);
    }
  }

  /** The chain and the server after the newest transaction was given up. */
  lemma PopRelates(s: Client, k: Stack, a: Addr, after: Client)
    requires Chained(s, k.frames) && Backed(s.server, k) && k.frames != [] && k.Top().id == a && a in s.objects
    requires after.server == Told(s, RollbackCommand(k.Top().kind, a))
    requires after.current == s.objects[a].previous && after.objects == s.objects - {a}
    ensures Chained(after, k.GiveUp(s.busy).frames) && Backed(after.server, k.GiveUp(s.busy))
  {
    ChainedIsStacked(s, k.frames);
    ChainedPop(s, k.frames, a, after);
    BackedGiveUp(s, k);
  }

  lemma DestroyOpenRefines(s: Client, k: Stack, a: Addr, after: Client)
    requires Related(s, k, Some(a)) && a in s.objects && !Alive(s, a)
    requires Open(s.objects[a]) && after == Destroy(s, a)
    ensures k.frames != [] && s.current == Some(a)
    ensures after.busy == s.busy && Related(after, k.GiveUp(s.busy), s.objects[a].previous)
  {
    UnownedIsCurrent(s, k.frames, a);
    DestroyOpen(s, k, a);
    PopRelates(s, k, a, after);
    OwnedRemove(s, a, after);
  }

  lemma DestroyFinishedRefines(s: Client, k: Stack, a: Addr, after: Client)
    requires Related(s, k, Some(a)) && a in s.objects && !Alive(s, a)
    requires !Open(s.objects[a]) && after == Destroy(s, a)
    ensures after.busy == s.busy && Related(after, k, s.objects[a].previous)
  {
    ChainedRemove(s, k.frames, a);
    OwnedRemove(s, a, after);
  }

  /** Every unfinished object that goes is the current one when its destructor runs. */
  ghost predicate OnlyCurrentGo(s: Client, a: Option<Addr>)
    decreases |s.objects|
  {
    if a.None? || a.value !in s.objects || Alive(s, a.value) then true
    else
      FewerObjects(s, Destroy(s, a.value), a.value);
      && (Open(s.objects[a.value]) ==> s.current == a)
      && OnlyCurrentGo(Destroy(s, a.value), s.objects[a.value].previous)
  }

  /**
    Destroying an object that nobody owns, and whatever it was the last one to own, gives up some
    number of the newest transactions, one after the other, each of them while it is the current one.
   */
  lemma {:induction false} CollectRefines(s: Client, k: Stack, a: Option<Addr>)
    returns (n: nat, end: Client, next: Stack)
    requires Related(s, k, a)
    ensures n <= |k.frames| && next == k.Unwind(n, s.busy) && end == Collect(s, a) && Related(end, next, None)
    ensures OnlyCurrentGo(s, a)
    decreases |s.objects|
  {
    if a.None? || a.value !in s.objects || Alive(s, a.value) {
      return 0, s, k;
    }
    var after := Destroy(s, a.value);
    var previous := s.objects[a.value].previous;
    FewerObjects(s, after, a.value);
    if Open(s.objects[a.value]) {
      DestroyOpenRefines(s, k, a.value, after);
      n, end, next := CollectRefines(after, k.GiveUp(s.busy), previous);
      n := n + 1;
    } else {
      DestroyFinishedRefines(s, k, a.value, after);
      n, end, next := CollectRefines(after, k, previous);
    }
  }
}
