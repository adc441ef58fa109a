/**
  Who keeps an object alive: a handle outside the library, or a younger object that is kept itself.
  What goes when an owner is lost is exactly what nobody keeps any more.
 */
module TransactionOwners {
  import opened Basics
  import opened SavepointServer
  import opened Transactions
  import opened TransactionStack

  /** A handle of the first object keeps all objects on the path, each through `m_previous`. */
  ghost predicate Owning(s: Client, path: seq<Addr>, a: Addr) {
    && path != [] && path[|path| - 1] == a
    && (forall i :: 0 <= i < |path| ==> path[i] in s.objects)
    && s.objects[path[0]].held
    && (forall i :: 0 <= i < |path| - 1 ==> s.objects[path[i]].previous == Some(path[i + 1]))
  }

  ghost predicate Kept(s: Client, a: Addr) { exists path :: Owning(s, path, a) }

  /** Exactly the `n` newest frames have an object that nobody keeps. */
  ghost predicate Loses(s: Client, frames: seq<Frame>, n: nat) {
    n <= |frames| && forall i :: 0 <= i < |frames| ==> (i < |frames| - n <==> Kept(s, frames[i].id))
  }

  // ---------- objects have ranks ----------

  lemma RankedPush(s: Client, a: Addr, tx: Tx, after: Client)
    requires Ranked(s) && Owned(s, None) && a !in s.objects && after.objects == s.objects[a := tx]
    requires tx.previous.Some? ==> tx.previous.value in s.objects
    ensures Ranked(after)
  {
    var rank :| RankedBy(s, rank);
    var longer := rank[a := if tx.previous.Some? then rank[tx.previous.value] + 1 else 0];
    assert RankedBy(after, longer);
  }

  /** Objects may go, or let go of what they point to. */
  lemma RankedSub(s: Client, after: Client)
    requires Ranked(s)
    requires forall b <- after.objects :: b in s.objects
               && (after.objects[b].previous == s.objects[b].previous || after.objects[b].previous == None)
    ensures Ranked(after)
  {
    var rank :| RankedBy(s, rank);
    assert RankedBy(after, rank);
  }

  /** The objects that are younger, by rank. */
  ghost function Younger(s: Client, rank: map<Addr, nat>, a: Addr): set<Addr>
    requires s.objects.Keys <= rank.Keys && a in s.objects
  {
    set b | b in s.objects && rank[b] > rank[a]
  }

  /** Every object that has an owner has one outside the library, directly or not. */
  lemma {:induction false} AliveIsKept(s: Client, rank: map<Addr, nat>, a: Addr)
    requires Owned(s, None) && RankedBy(s, rank) && a in s.objects
    ensures Kept(s, a)
    decreases Younger(s, rank, a)
  {
    assert Alive(s, a);
    if s.objects[a].held {
      assert Owning(s, [a], a);
    } else {
      var b :| b in s.objects && s.objects[b].previous == Some(a);
      assert b in Younger(s, rank, a) && b !in Younger(s, rank, b);
      AliveIsKept(s, rank, b);
      var path :| Owning(s, path, b);
      assert Owning(s, path + [a], a);
    }
  }

  lemma HeldIsKept(s: Client, a: Addr)
    requires a in s.objects && s.objects[a].held
    ensures Kept(s, a)
  {
    assert Owning(s, [a], a);
  }

  lemma UnownedIsNotKept(s: Client, a: Addr)
    requires a in s.objects && !Alive(s, a)
    ensures !Kept(s, a)
  {
    forall path ensures !Owning(s, path, a) {
      if |path| > 1 {
        var b := path[|path| - 2];
        assert b in s.objects ==> s.objects[b].previous != Some(a);
      }
    }
  }

  // ---------- what goes ----------

  lemma DestroyRemoves(s: Client, a: Addr)
    requires a in s.objects
    ensures Destroy(s, a).objects == s.objects - {a}
  {
    assert Reset(s, a).objects - {a} == s.objects - {a};
  }

  /** The objects of `end` are objects of `s`, and are unchanged. */
  ghost predicate Fewer(s: Client, end: Client) {
    forall b <- end.objects :: b in s.objects && end.objects[b] == s.objects[b]
  }

  lemma KeptEarlier(s: Client, end: Client, a: Addr)
    requires Fewer(s, end) && Kept(end, a)
    ensures Kept(s, a)
  {
    var path :| Owning(end, path, a);
    assert Owning(s, path, a);
  }

  /** What is kept survives the destruction of an object that nobody owns. */
  lemma KeptLater(s: Client, gone: Addr, a: Addr)
    requires Kept(s, a) && gone in s.objects && !Alive(s, gone)
    ensures Kept(Destroy(s, gone), a)
  {
    DestroyRemoves(s, gone);
    var path :| Owning(s, path, a);
    forall i | 0 <= i < |path| ensures path[i] != gone {
      if i > 0 {
        assert s.objects[path[i - 1]].previous == Some(path[i]);
        assert Referenced(s, path[i]);
      }
    }
    assert Owning(Destroy(s, gone), path, a);
  }

  lemma {:induction false} CollectRemoves(s: Client, a: Option<Addr>, end: Client)
    requires end == Collect(s, a)
    ensures Fewer(s, end)
    ensures forall b {:trigger Kept(s, b)} :: Kept(s, b) ==> b in end.objects
    decreases |s.objects|
  {
    if a.Some? && a.value in s.objects && !Alive(s, a.value) {
      var after := Destroy(s, a.value);
      DestroyRemoves(s, a.value);
      FewerObjects(s, after, a.value);
      CollectRemoves(after, s.objects[a.value].previous, end);
      forall b | Kept(s, b) ensures b in end.objects {
        KeptLater(s, a.value, b);
      }
    } else {
      forall b | Kept(s, b) ensures b in s.objects {
        var path :| Owning(s, path, b);
      }
    }
  }

  /** Exactly the objects that somebody keeps remain. */
  lemma {:induction false} CollectKeeps(s: Client, a: Option<Addr>, end: Client, b: Addr)
    requires end == Collect(s, a) && Owned(end, None) && Ranked(s)
    ensures b in end.objects <==> Kept(s, b)
    ensures b in end.objects ==> b in s.objects && end.objects[b] == s.objects[b]
  {
    CollectRemoves(s, a, end);
    if b in end.objects {
      RankedSub(s, end);
      var rank :| RankedBy(end, rank);
      AliveIsKept(end, rank, b);
      KeptEarlier(s, end, b);
    }
  }

  /** A frame whose object remains, unfinished, remains. */
  lemma RemainingFrame(s: Client, frames: seq<Frame>, end: Client, m: nat, i: nat)
    requires Chained(s, frames) && m <= |frames| && Chained(end, frames[..m]) && i < |frames|
    requires frames[i].id in end.objects && Open(end.objects[frames[i].id])
    ensures i < m
  {
    assert InFrames(frames[..m], frames[i].id);
    var j :| 0 <= j < m && frames[..m][j].id == frames[i].id;
    assert frames[..m][j] == frames[j] && !(j < i) && !(i < j);
  }

  /** On the stack these are the newest frames. */
  lemma {:induction false} CollectLoses(s: Client, frames: seq<Frame>, a: Option<Addr>, end: Client, n: nat)
    requires end == Collect(s, a) && Owned(end, None) && Ranked(s) && Chained(s, frames)
    requires n <= |frames| && Chained(end, frames[..|frames| - n])
    ensures Loses(s, frames, n)
  {
    var rest := frames[..|frames| - n];
    forall i | 0 <= i < |frames| ensures i < |frames| - n <==> Kept(s, frames[i].id) {
      CollectKeeps(s, a, end, frames[i].id);
      assert ChainedAt(s, frames, i);
      if i < |rest| {
        assert ChainedAt(end, rest, i) && rest[i] == frames[i];
      } else if frames[i].id in end.objects {
        RemainingFrame(s, frames, end, |rest|, i);
      }
    }
  }
}
