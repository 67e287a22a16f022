/**
 The download queue: for every destination folder, the entries still to be
 downloaded, keyed by their index. An entry is identified by its folder and
 its index; the URL is what gets fetched for it.
 */
module DownloadQueue {

  /** The identity of one queue entry: destination folder and index. */
  datatype Key = Key(folder: string, index: int)

  /** Folder path to (index to URL). */
  type Queue = map<string, map<int, string>>

  /** Every (folder, index) pair present in the queue. */
  function Entries(q: Queue): (es: set<Key>)
    ensures forall k :: k in es <==> k.folder in q && k.index in q[k.folder]
  {
    set f, i | f in q && i in q[f] :: Key(f, i)
  }

  /** The number of entries still in the queue, summed over all folders. */
  function Count(q: Queue): nat {
    |Entries(q)|
  }

  /** The entries one folder holds. */
  function FolderEntries(f: string, m: map<int, string>): (es: set<Key>)
    ensures forall k :: k in es <==> k.folder == f && k.index in m
  {
    set i | i in m :: Key(f, i)
  }

  /** A folder holds as many entries as its inner map has keys. */
  lemma FolderEntriesSize(f: string, m: map<int, string>)
    ensures |FolderEntries(f, m)| == |m|
  {
    TaggedSize(f, m.Keys);
    assert FolderEntries(f, m) == set i | i in m.Keys :: Key(f, i);
  }

  lemma {:induction false} TaggedSize(f: string, ks: set<int>)
    ensures |set i | i in ks :: Key(f, i)| == |ks|
    decreases ks
  {
    if ks != {} {
      var i := PickFrom(ks);
      var rest := ks - {i};
      TaggedSize(f, rest);
      var all := set j | j in ks :: Key(f, j);
      var others := set j | j in rest :: Key(f, j);
      forall k | k in all
        ensures k in others + {Key(f, i)}
      {
        var j :| j in ks && k == Key(f, j);
        if j != i {
          assert j in rest;
        }
      }
      assert all == others + {Key(f, i)};
    }
  }

  /** Some element of a non-empty set. */
  lemma PickFrom<T>(s: set<T>) returns (x: T)
    requires s != {}
    ensures x in s
  {
    assert (forall y :: y !in s) ==> s == {};
    x :| x in s;
  }

  /**
   Installing the inner map `m` at folder `f` replaces whatever `f` held:
   the count goes up by |m| when `f` was new, and by at most |m| otherwise.
   */
  lemma CountAfterInstall(q: Queue, f: string, m: map<int, string>)
    ensures f !in q ==> Count(q[f := m]) == Count(q) + |m|
    ensures Count(q[f := m]) <= Count(q) + |m|
  {
    var gone := FolderEntries(f, if f in q then q[f] else map[]);
    var kept := Entries(q) - gone;
    var added := FolderEntries(f, m);
    EntriesAfterInstall(q, f, m, kept, added);
    FolderEntriesSize(f, m);
    assert |kept + added| == |kept| + |added|;
    if f !in q {
      assert gone == {};
    }
  }

  lemma EntriesAfterInstall(q: Queue, f: string, m: map<int, string>, kept: set<Key>, added: set<Key>)
    requires kept == Entries(q) - FolderEntries(f, if f in q then q[f] else map[])
    requires added == FolderEntries(f, m)
    ensures Entries(q[f := m]) == kept + added
    ensures kept !! added
  {
    var q' := q[f := m];
    forall k
      ensures k in Entries(q') <==> k in kept + added
    {
      if k.folder == f {
        assert k !in kept;
      } else {
        assert k !in added;
      }
    }
  }
}
