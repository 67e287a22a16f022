/**
 The retry scheduler: visits every remaining entry of every folder, one
 attempt each, removes and counts the entries whose attempt succeeded, drops
 a folder once its pass leaves it empty, and starts over until the queue is
 empty. The outcome of each attempt comes from outside: a pass is described
 by the set of entries whose attempt succeeds during it, which is complete
 because a pass attempts every entry exactly once.
 */
module Scheduler {
  import opened DownloadQueue

  /** The state of a run: the queue and the `downloaded` and `totalFiles` counters. */
  datatype Run = Run(queue: Queue, downloaded: nat, total: nat)

  /** Every file of the run is either downloaded or still queued, never both, never neither. */
  predicate Accounted(r: Run) {
    r.downloaded + Count(r.queue) == r.total
  }

  /** `a` only ever lost entries relative to `b`: every folder and entry of `a` is in `b` with the same URL. */
  predicate SubQueue(a: Queue, b: Queue) {
    forall f :: f in a ==> f in b && forall i :: i in a[f] ==> i in b[f] && a[f][i] == b[f][i]
  }

  /**
   One download attempt for the entry at `index` in `folder`. On success the
   entry is removed and `downloaded` goes up by one; on failure nothing
   changes.
   */
  function Attempt(r: Run, folder: string, index: int, ok: bool): (r': Run)
    requires folder in r.queue && index in r.queue[folder]
    ensures r'.total == r.total
    ensures r'.queue.Keys == r.queue.Keys
    ensures SubQueue(r'.queue, r.queue)
    ensures Entries(r'.queue) == if ok then Entries(r.queue) - {Key(folder, index)} else Entries(r.queue)
    ensures r'.downloaded == if ok then r.downloaded + 1 else r.downloaded
    ensures Accounted(r) ==> Accounted(r')
  {
    if ok then
      var r' := Run(r.queue[folder := r.queue[folder] - {index}], r.downloaded + 1, r.total);
      AttemptEntries(r.queue, folder, index, r'.queue);
      r'
    else r
  }

  lemma AttemptEntries(q: Queue, folder: string, index: int, q': Queue)
    requires folder in q && index in q[folder]
    requires q' == q[folder := q[folder] - {index}]
    ensures Entries(q') == Entries(q) - {Key(folder, index)}
    ensures Count(q') == Count(q) - 1
  {
    forall k
      ensures k in Entries(q') <==> k in Entries(q) - {Key(folder, index)}
    {
    }
    assert Key(folder, index) in Entries(q);
  }

  /**
   The check after a folder's pass: the folder key is deleted when its
   inner map is empty, and kept otherwise.
   */
  function DropIfEmpty(r: Run, folder: string): (r': Run)
    ensures r'.downloaded == r.downloaded && r'.total == r.total
    ensures Entries(r'.queue) == Entries(r.queue)
    ensures folder in r.queue && |r.queue[folder]| > 0 <==> folder in r'.queue
    ensures forall f :: f != folder ==> (f in r'.queue <==> f in r.queue)
    ensures SubQueue(r'.queue, r.queue)
  {
    if folder in r.queue && |r.queue[folder]| == 0 then
      var r' := Run(r.queue - {folder}, r.downloaded, r.total);
      assert Entries(r'.queue) == Entries(r.queue) by {
        assert r.queue[folder].Keys == {};
      }
      r'
    else r
  }

  /** What is left of folder `f` once the entries in `tried` have been attempted. */
  function Kept(q: Queue, ok: set<Key>, tried: set<Key>, f: string): (m: map<int, string>)
    requires f in q
    ensures forall i :: i in m <==> i in q[f] && !(Key(f, i) in tried && Key(f, i) in ok)
    ensures forall i :: i in m ==> m[i] == q[f][i]
  {
    map i | i in q[f] && !(Key(f, i) in tried && Key(f, i) in ok) :: q[f][i]
  }

  /**
   The queue after the entries in `tried` have been attempted, with the
   ones in `ok` removed, and after the folders in `closed` have been
   checked for emptiness.
   */
  function Progress(q: Queue, ok: set<Key>, tried: set<Key>, closed: set<string>): (p: Queue)
    ensures forall f :: f in p <==> f in q && !(f in closed && Kept(q, ok, tried, f) == map[])
    ensures forall f :: f in p ==> p[f] == Kept(q, ok, tried, f)
  {
    map f | f in q && !(f in closed && Kept(q, ok, tried, f) == map[]) :: Kept(q, ok, tried, f)
  }

  /** Before anything is tried or closed, the queue is as it was. */
  lemma ProgressStart(q: Queue, ok: set<Key>)
    ensures Progress(q, ok, {}, {}) == q
  {
    var p := Progress(q, ok, {}, {});
    forall f | f in q
      ensures p[f] == q[f]
    {
      assert Kept(q, ok, {}, f).Keys == q[f].Keys;
    }
  }

  /**
   What one full pass over the queue does when the attempts for the entries
   in `ok` succeed and all others fail: the successful entries are gone and
   counted, every other entry is untouched, and exactly the folders left
   without entries are dropped.
   */
  function PassResult(r: Run, ok: set<Key>): (r': Run)
    ensures r'.total == r.total
    ensures Entries(r'.queue) == Entries(r.queue) - ok
    ensures r'.downloaded == r.downloaded + |Entries(r.queue) * ok|
    ensures SubQueue(r'.queue, r.queue)
    ensures forall f :: f in r.queue ==>
              (f !in r'.queue <==> forall i :: i in r.queue[f] ==> Key(f, i) in ok)
    ensures forall f :: f in r'.queue ==> |r'.queue[f]| > 0
    ensures Accounted(r) ==> Accounted(r')
  {
    var r' := Run(Progress(r.queue, ok, Entries(r.queue), r.queue.Keys),
                  r.downloaded + |Entries(r.queue) * ok|, r.total);
    PassFacts(r.queue, ok, r'.queue);
    r'
  }

  lemma PassFacts(q: Queue, ok: set<Key>, q': Queue)
    requires q' == Progress(q, ok, Entries(q), q.Keys)
    ensures Entries(q') == Entries(q) - ok
    ensures SubQueue(q', q)
    ensures forall f :: f in q ==> (f !in q' <==> forall i :: i in q[f] ==> Key(f, i) in ok)
    ensures forall f :: f in q' ==> |q'[f]| > 0
    ensures Count(q) == Count(q') + |Entries(q) * ok|
  {
    forall f | f in q
      ensures f !in q' <==> forall i :: i in q[f] ==> Key(f, i) in ok
    {
      PassFolder(q, ok, f);
    }
    PassEntries(q, ok, q');
    var gone := Entries(q) * ok;
    assert Entries(q) == Entries(q') + gone;
    assert Entries(q') !! gone;
  }

  /** After a full pass a folder is empty exactly when all its entries succeeded. */
  lemma PassFolder(q: Queue, ok: set<Key>, f: string)
    requires f in q
    ensures Kept(q, ok, Entries(q), f) == map[] <==> forall i :: i in q[f] ==> Key(f, i) in ok
  {
    var m := Kept(q, ok, Entries(q), f);
    if |m| == 0 {
      forall i | i in q[f]
        ensures Key(f, i) in ok
      {
      }
    } else {
      var i := PickFrom(m.Keys);
      assert Key(f, i) !in ok;
    }
  }

  lemma PassEntries(q: Queue, ok: set<Key>, q': Queue)
    requires q' == Progress(q, ok, Entries(q), q.Keys)
    ensures Entries(q') == Entries(q) - ok
  {
    forall k
      ensures k in Entries(q') <==> k in Entries(q) - ok
    {
      if k in Entries(q) - ok {
        assert k.index in Kept(q, ok, Entries(q), k.folder);
      }
    }
  }

  /**
   One pass of the scheduler loop as the source runs it: the folders are
   visited in an order the program does not fix, and so are the entries of
   each folder; every entry is attempted once, with success exactly for the
   entries in `ok`; after a folder's entries, the folder is dropped if it
   is empty. Whatever order is picked, the pass ends in `PassResult`.
   */
  method RunPass(r: Run, ok: set<Key>) returns (r': Run)
    ensures r' == PassResult(r, ok)
  {
    var run := r;
    var pending := r.queue.Keys;
    ghost var closed: set<string> := {};
    ghost var tried: set<Key> := {};
    OuterStart(r, ok);
    while pending != {}
      invariant OuterInv(r, ok, pending, closed, tried, run)
      decreases pending
    {
      assert (forall g :: g !in pending) ==> pending == {};
      var f :| f in pending;
      InnerStart(r, ok, pending, closed, tried, run, f);
      var todo := run.queue[f].Keys;
      while todo != {}
        invariant InnerInv(r, ok, closed, f, todo, tried, run)
        decreases todo
      {
        assert (forall j :: j !in todo) ==> todo == {};
        var i :| i in todo;
        InnerStep(r, ok, closed, f, todo, tried, run, i);
        run := Attempt(run, f, i, Key(f, i) in ok);
        tried := tried + {Key(f, i)};
        todo := todo - {i};
      }
      InnerEnd(r, ok, pending, closed, f, tried, run);
      run := DropIfEmpty(run, f);
      closed := closed + {f};
      pending := pending - {f};
    }
    OuterEnd(r, ok, closed, tried, run);
    r' := run;
  }

  /**
   Between folders of a pass: the folders visited so far are `closed`, the
   entries tried are exactly theirs, and the run is what `Progress` says.
   */
  ghost predicate OuterInv(r: Run, ok: set<Key>, pending: set<string>, closed: set<string>,
                           tried: set<Key>, run: Run)
  {
    && pending !! closed && pending + closed == r.queue.Keys
    && (forall k :: k in tried <==> k in Entries(r.queue) && k.folder in closed)
    && run == Run(Progress(r.queue, ok, tried, closed), r.downloaded + |tried * ok|, r.total)
  }

  /** Inside the visit of folder `f`: its indices in `todo` are the ones not yet tried. */
  ghost predicate InnerInv(r: Run, ok: set<Key>, closed: set<string>, f: string, todo: set<int>,
                           tried: set<Key>, run: Run)
  {
    && f in r.queue && f !in closed && todo <= r.queue[f].Keys
    && (forall k :: k in tried <==>
          k in Entries(r.queue) && (k.folder in closed || (k.folder == f && k.index !in todo)))
    && run == Run(Progress(r.queue, ok, tried, closed), r.downloaded + |tried * ok|, r.total)
  }

  lemma OuterStart(r: Run, ok: set<Key>)
    ensures OuterInv(r, ok, r.queue.Keys, {}, {}, r)
  {
    ProgressStart(r.queue, ok);
  }

  lemma InnerStart(r: Run, ok: set<Key>, pending: set<string>, closed: set<string>,
                   tried: set<Key>, run: Run, f: string)
    requires OuterInv(r, ok, pending, closed, tried, run) && f in pending
    ensures f in run.queue && run.queue[f].Keys == r.queue[f].Keys
    ensures InnerInv(r, ok, closed, f, run.queue[f].Keys, tried, run)
  {
    ProgressOpen(r.queue, ok, tried, closed, f);
  }

  lemma InnerStep(r: Run, ok: set<Key>, closed: set<string>, f: string, todo: set<int>,
                  tried: set<Key>, run: Run, i: int)
    requires InnerInv(r, ok, closed, f, todo, tried, run) && i in todo
    ensures f in run.queue && i in run.queue[f]
    ensures InnerInv(r, ok, closed, f, todo - {i}, tried + {Key(f, i)}, Attempt(run, f, i, Key(f, i) in ok))
  {
    var k := Key(f, i);
    assert k !in tried;
    ProgressAttempt(r.queue, ok, tried, closed, k);
    TriedCount(tried, ok, k);
  }

  lemma InnerEnd(r: Run, ok: set<Key>, pending: set<string>, closed: set<string>, f: string,
                 tried: set<Key>, run: Run)
    requires pending !! closed && pending + closed == r.queue.Keys && f in pending
    requires InnerInv(r, ok, closed, f, {}, tried, run)
    ensures OuterInv(r, ok, pending - {f}, closed + {f}, tried, DropIfEmpty(run, f))
  {
    ProgressClose(r.queue, ok, tried, closed, f);
  }

  lemma OuterEnd(r: Run, ok: set<Key>, closed: set<string>, tried: set<Key>, run: Run)
    requires OuterInv(r, ok, {}, closed, tried, run)
    ensures run == PassResult(r, ok)
  {
    assert closed == r.queue.Keys;
    TriedAll(r.queue, closed, tried);
  }

  lemma TriedAll(q: Queue, closed: set<string>, tried: set<Key>)
    requires closed == q.Keys
    requires forall k :: k in tried <==> k in Entries(q) && k.folder in closed
    ensures tried == Entries(q)
  {
  }

  /** A folder not yet closed is still in the queue, with all of its untried entries. */
  lemma ProgressOpen(q: Queue, ok: set<Key>, tried: set<Key>, closed: set<string>, f: string)
    requires f in q && f !in closed
    ensures f in Progress(q, ok, tried, closed)
    ensures forall i :: i in q[f] && Key(f, i) !in tried ==> i in Progress(q, ok, tried, closed)[f]
    ensures (forall i :: i in q[f] ==> Key(f, i) !in tried) ==> Progress(q, ok, tried, closed)[f] == q[f]
  {
  }

  /** Attempting one more untried entry of an open folder is one step of `Progress`. */
  lemma ProgressAttempt(q: Queue, ok: set<Key>, tried: set<Key>, closed: set<string>, k: Key)
    requires k.folder in q && k.index in q[k.folder] && k.folder !in closed && k !in tried
    ensures k.folder in Progress(q, ok, tried, closed)
    ensures k.index in Progress(q, ok, tried, closed)[k.folder]
    ensures Attempt(Run(Progress(q, ok, tried, closed), 0, 0), k.folder, k.index, k in ok).queue
            == Progress(q, ok, tried + {k}, closed)
  {
    var p := Progress(q, ok, tried, closed);
    ProgressOpen(q, ok, tried, closed, k.folder);
    ProgressRemove(q, ok, tried, closed, k);
    AttemptQueue(Run(p, 0, 0), k.folder, k.index, k in ok);
  }

  /** What an attempt does to the queue. */
  lemma AttemptQueue(r: Run, folder: string, index: int, ok: bool)
    requires folder in r.queue && index in r.queue[folder]
    ensures Attempt(r, folder, index, ok).queue ==
              if ok then r.queue[folder := r.queue[folder] - {index}] else r.queue
  {
  }

  /** Trying entry `k` removes it from its folder exactly when it succeeds. */
  lemma ProgressRemove(q: Queue, ok: set<Key>, tried: set<Key>, closed: set<string>, k: Key)
    requires k.folder in q && k.index in q[k.folder] && k.folder !in closed && k !in tried
    requires k.folder in Progress(q, ok, tried, closed)
    ensures var p := Progress(q, ok, tried, closed);
            (if k in ok then p[k.folder := p[k.folder] - {k.index}] else p) == Progress(q, ok, tried + {k}, closed)
  {
    var p := Progress(q, ok, tried, closed);
    var p' := Progress(q, ok, tried + {k}, closed);
    var a := if k in ok then p[k.folder := p[k.folder] - {k.index}] else p;
    assert a.Keys == p'.Keys by {
      forall f | f in q && f != k.folder
        ensures Kept(q, ok, tried + {k}, f) == Kept(q, ok, tried, f)
      {
        KeptOther(q, ok, tried, k, f);
      }
    }
    forall f | f in a
      ensures a[f] == p'[f]
    {
      if f == k.folder {
        KeptAttempt(q, ok, tried, k);
      } else {
        KeptOther(q, ok, tried, k, f);
      }
    }
  }

  lemma KeptOther(q: Queue, ok: set<Key>, tried: set<Key>, k: Key, f: string)
    requires f in q && f != k.folder
    ensures Kept(q, ok, tried + {k}, f) == Kept(q, ok, tried, f)
  {
    assert Kept(q, ok, tried + {k}, f).Keys == Kept(q, ok, tried, f).Keys;
  }

  lemma KeptAttempt(q: Queue, ok: set<Key>, tried: set<Key>, k: Key)
    requires k.folder in q && k.index in q[k.folder] && k !in tried
    ensures Kept(q, ok, tried + {k}, k.folder) ==
              if k in ok then Kept(q, ok, tried, k.folder) - {k.index} else Kept(q, ok, tried, k.folder)
  {
    var before := Kept(q, ok, tried, k.folder);
    var after := Kept(q, ok, tried + {k}, k.folder);
    if k in ok {
      assert after.Keys == before.Keys - {k.index};
    } else {
      assert after.Keys == before.Keys;
    }
  }

  /** Closing a folder is one step of `Progress`. */
  lemma ProgressClose(q: Queue, ok: set<Key>, tried: set<Key>, closed: set<string>, f: string)
    requires f in q && f !in closed
    ensures DropIfEmpty(Run(Progress(q, ok, tried, closed), 0, 0), f).queue
            == Progress(q, ok, tried, closed + {f})
  {
    var p := Progress(q, ok, tried, closed);
    var d := DropIfEmpty(Run(p, 0, 0), f).queue;
    var p' := Progress(q, ok, tried, closed + {f});
    assert d.Keys == p'.Keys;
  }

  /** Adding one newly tried entry adds one to the successes exactly when it succeeded. */
  lemma TriedCount(tried: set<Key>, ok: set<Key>, k: Key)
    requires k !in tried
    ensures |(tried + {k}) * ok| == |tried * ok| + (if k in ok then 1 else 0)
  {
    if k in ok {
      assert (tried + {k}) * ok == tried * ok + {k};
    } else {
      assert (tried + {k}) * ok == tried * ok;
    }
  }

  /** `SubQueue` is transitive: entries lost stay lost. */
  lemma SubQueueTrans(a: Queue, b: Queue, c: Queue)
    requires SubQueue(a, b) && SubQueue(b, c)
    ensures SubQueue(a, c)
  {
  }

  /** Where a run ends up and how many passes it took to get there. */
  datatype Outcome = Outcome(run: Run, passes: nat)

  /**
   The outer loop: while the queue is non-empty, run a pass, the i-th pass
   succeeding for the entries in `passes[i]`. It stops early only when the
   queue is empty; otherwise it uses every pass given.
   */
  function Drive(r: Run, passes: seq<set<Key>>): (o: Outcome)
    ensures o.passes <= |passes|
    ensures o.passes < |passes| ==> o.run.queue == map[]
    ensures r.queue == map[] ==> o.passes == 0
    ensures o.run.total == r.total && o.run.downloaded >= r.downloaded
    ensures SubQueue(o.run.queue, r.queue)
    ensures Accounted(r) ==> Accounted(o.run)
    ensures Accounted(r) && o.run.queue == map[] ==> o.run.downloaded == o.run.total
    decreases |passes|
  {
    if |r.queue| == 0 || |passes| == 0 then Outcome(r, 0)
    else
      var next := PassResult(r, passes[0]);
      var o := Drive(next, passes[1..]);
      SubQueueTrans(o.run.queue, next.queue, r.queue);
      Outcome(o.run, o.passes + 1)
  }

  /**
   The scheduler loop itself, pass after pass until the queue is empty or
   the given passes run out; it ends where `Drive` says.
   */
  method Schedule(r: Run, passes: seq<set<Key>>) returns (r': Run, used: nat)
    ensures Outcome(r', used) == Drive(r, passes)
  {
    var run := r;
    used := 0;
    while |run.queue| > 0 && used < |passes|
      invariant used <= |passes|
      invariant Drive(r, passes) ==
                  Outcome(Drive(run, passes[used..]).run, used + Drive(run, passes[used..]).passes)
      decreases |passes| - used
    {
      assert passes[used..][1..] == passes[used + 1..];
      run := RunPass(run, passes[used]);
      used := used + 1;
    }
    r' := run;
  }

  /** A pass in which every attempt succeeds empties the queue. */
  lemma AllSucceedEmpties(r: Run, ok: set<Key>)
    requires Entries(r.queue) <= ok
    ensures PassResult(r, ok).queue == map[]
  {
    var q' := PassResult(r, ok).queue;
    forall f | f in r.queue
      ensures f !in q'
    {
      assert forall i :: i in r.queue[f] ==> Key(f, i) in Entries(r.queue);
    }
    assert q'.Keys == {};
  }

  /** A queue whose folders are all non-empty is empty once it has no entries. */
  lemma NoEntriesNoFolders(q: Queue)
    requires forall f :: f in q ==> |q[f]| > 0
    requires Entries(q) == {}
    ensures q == map[]
  {
    if q != map[] {
      var f := PickFrom(q.Keys);
      var i := PickFrom(q[f].Keys);
      assert false;
    }
  }

  /** The attempt for `k` succeeds in at least one of the passes. */
  predicate SucceedsIn(k: Key, passes: seq<set<Key>>) {
    exists i :: 0 <= i < |passes| && k in passes[i]
  }

  lemma SucceedsLater(k: Key, passes: seq<set<Key>>)
    requires SucceedsIn(k, passes) && k !in passes[0]
    ensures SucceedsIn(k, passes[1..])
  {
    var i :| 0 <= i < |passes| && k in passes[i];
    assert passes[1..][i - 1] == passes[i];
  }

  /**
   Termination: if every queued entry succeeds in at least one of the
   passes, the queue is empty by the end (which includes dropping folders
   that were empty from the start).
   */
  lemma {:induction false} EventuallyEmpty(r: Run, passes: seq<set<Key>>)
    requires |passes| > 0
    requires forall k :: k in Entries(r.queue) ==> SucceedsIn(k, passes)
    ensures Drive(r, passes).run.queue == map[]
    decreases |passes|
  {
    if |r.queue| != 0 {
      var next := PassResult(r, passes[0]);
      var rest := passes[1..];
      if Entries(next.queue) == {} {
        NoEntriesNoFolders(next.queue);
      } else {
        var k := PickFrom(Entries(next.queue));
        assert k in Entries(r.queue) && k !in passes[0];
        SucceedsLater(k, passes);
        forall k' | k' in Entries(next.queue)
          ensures SucceedsIn(k', rest)
        {
          assert k' in Entries(r.queue) && k' !in passes[0];
          SucceedsLater(k', passes);
        }
        EventuallyEmpty(next, rest);
      }
    }
  }

  /**
   No retry cap: an entry whose attempt never succeeds stays queued through
   every pass, so the loop never reaches its exit and `downloaded` stays
   below `totalFiles`.
   */
  lemma {:induction false} NeverSucceeds(r: Run, passes: seq<set<Key>>, k: Key)
    requires k in Entries(r.queue)
    requires forall i :: 0 <= i < |passes| ==> k !in passes[i]
    ensures k in Entries(Drive(r, passes).run.queue)
    ensures Drive(r, passes).passes == |passes|
    ensures Accounted(r) ==> Drive(r, passes).run.downloaded < Drive(r, passes).run.total
    decreases |passes|
  {
    if |passes| > 0 {
      var next := PassResult(r, passes[0]);
      assert k in Entries(next.queue);
      NeverSucceeds(next, passes[1..], k);
    }
    var end := Drive(r, passes).run;
    assert Count(end.queue) > 0;
  }
}
