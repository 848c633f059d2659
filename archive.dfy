/** The part of a JSZip archive that `generateQTI` uses: `zip.file(path,
    data)` stores a text under a path, replacing what was stored there
    before, and the archive keeps its paths in the order they were first
    stored. */
module Archive {

  /** One `zip.file(path, data)` call. */
  datatype Entry = Entry(path: string, data: string)

  predicate Distinct(ps: seq<string>) {
    forall a, b :: 0 <= a < b < |ps| ==> ps[a] != ps[b]
  }

  /** The paths of a run of calls, in call order. */
  function Paths(es: seq<Entry>): (ps: seq<string>)
    ensures |ps| == |es| && forall k :: 0 <= k < |es| ==> ps[k] == es[k].path
  {
    seq(|es|, k requires 0 <= k < |es| => es[k].path)
  }

  /** What an empty archive holds after the calls `es`, in order: a later
      call replaces the text an earlier one stored under the same path. */
  function Stored(es: seq<Entry>): map<string, string>
    decreases |es|
  {
    if es == [] then map[]
    else Stored(es[..|es| - 1])[es[|es| - 1].path := es[|es| - 1].data]
  }

  /** The archive's paths after the calls `es`: each path once, in the order
      of the call that first named it. */
  function Listed(es: seq<Entry>): seq<string>
    decreases |es|
  {
    if es == [] then []
    else
      var before := Listed(es[..|es| - 1]);
      if es[|es| - 1].path in before then before else before + [es[|es| - 1].path]
  }

  /** A path is stored exactly when some call named it. */
  lemma {:induction false} StoredKeys(es: seq<Entry>)
    ensures forall p :: p in Stored(es) <==> p in Paths(es)
    decreases |es|
  {
    if es != [] {
      StoredKeys(es[..|es| - 1]);
      assert Paths(es) == Paths(es[..|es| - 1]) + [es[|es| - 1].path];
    }
  }

  /** The listed paths are distinct, and a path is listed exactly when some
      call named it. */
  lemma {:induction false} ListedPaths(es: seq<Entry>)
    ensures Distinct(Listed(es))
    ensures forall p :: p in Listed(es) <==> p in Paths(es)
    decreases |es|
  {
    if es != [] {
      ListedPaths(es[..|es| - 1]);
      assert Paths(es) == Paths(es[..|es| - 1]) + [es[|es| - 1].path];
    }
  }

  /** When no path is named twice, the archive lists the paths in call order,
      holds one file per call, and each file holds the text its call gave. */
  lemma {:induction false} StoredDistinct(es: seq<Entry>)
    requires Distinct(Paths(es))
    ensures Listed(es) == Paths(es)
    ensures |Stored(es)| == |es|
    ensures forall k :: 0 <= k < |es| ==> es[k].path in Stored(es) && Stored(es)[es[k].path] == es[k].data
    decreases |es|
  {
    if es != [] {
      var init := es[..|es| - 1];
      var last := es[|es| - 1];
      assert Paths(init) == Paths(es)[..|es| - 1];
      assert Paths(es) == Paths(init) + [last.path];
      StoredDistinct(init);
      StoredKeys(init);
      assert last.path !in Paths(init);
      var m := Stored(init);
      assert Stored(es) == m[last.path := last.data];
      assert m[last.path := last.data].Keys == m.Keys + {last.path};
      forall k | 0 <= k < |es| ensures es[k].path in Stored(es) && Stored(es)[es[k].path] == es[k].data {
        if k < |es| - 1 {
          assert es[k] == init[k];
          assert es[k].path != last.path;
        }
      }
    }
  }

  /** One more call: the archive after it is the archive before it with the
      call applied. */
  lemma StoredSnoc(es: seq<Entry>, e: Entry)
    ensures Stored(es + [e]) == Stored(es)[e.path := e.data]
    ensures Listed(es + [e]) == if e.path in Listed(es) then Listed(es) else Listed(es) + [e.path]
  {
    assert (es + [e])[..|es|] == es;
  }

  lemma PathsPrefix(es: seq<Entry>, m: nat)
    requires m <= |es|
    ensures Paths(es[..m]) == Paths(es)[..m]
  {
  }

  lemma DistinctPrefix(ps: seq<string>, m: nat)
    requires m <= |ps| && Distinct(ps)
    ensures Distinct(ps[..m])
  {
  }

  /** Giving call `k` other data changes only the file at its path. */
  lemma {:induction false} StoredReplace(es: seq<Entry>, k: nat, d: string)
    requires k < |es| && Distinct(Paths(es))
    ensures Stored(es[k := Entry(es[k].path, d)]) == Stored(es)[es[k].path := d]
    decreases |es|
  {
    var n := |es|;
    var fs := es[k := Entry(es[k].path, d)];
    var init, last := es[..n - 1], es[n - 1];
    assert Paths(es) == Paths(init) + [last.path];
    if k == n - 1 {
      assert fs[..n - 1] == init;
    } else {
      assert fs[..n - 1] == init[k := Entry(es[k].path, d)];
      assert fs[n - 1] == last;
      PathsPrefix(es, n - 1);
      DistinctPrefix(Paths(es), n - 1);
      StoredReplace(init, k, d);
      assert Paths(es)[k] != Paths(es)[n - 1];
      var m := Stored(init);
      assert m[es[k].path := d][last.path := last.data] == m[last.path := last.data][es[k].path := d];
    }
  }

  /** A call whose path no other call names can be moved: its file is the
      same wherever it sits among the calls. */
  lemma {:induction false} StoredInsert(xs: seq<Entry>, e: Entry, ys: seq<Entry>)
    requires Distinct(Paths(xs + [e] + ys))
    ensures Stored(xs + [e] + ys) == Stored(xs + ys)[e.path := e.data]
    decreases |ys|
  {
    if ys == [] {
      assert xs + [e] + ys == xs + [e];
      assert xs + ys == xs;
      assert (xs + [e])[..|xs|] == xs;
    } else {
      var all := xs + [e] + ys;
      var n := |all|;
      var ys0, y := ys[..|ys| - 1], ys[|ys| - 1];
      assert all[..n - 1] == xs + [e] + ys0;
      assert all[n - 1] == y;
      assert (xs + ys)[..|xs + ys| - 1] == xs + ys0;
      assert (xs + ys)[|xs + ys| - 1] == y;
      PathsPrefix(all, n - 1);
      DistinctPrefix(Paths(all), n - 1);
      StoredInsert(xs, e, ys0);
      assert Paths(all)[|xs|] == e.path && Paths(all)[n - 1] == y.path;
      var m := Stored(xs + ys0);
      assert m[e.path := e.data][y.path := y.data] == m[y.path := y.data][e.path := e.data];
    }
  }

  /** A JSZip instance, reduced to its file table. */
  class Zip {
    /** Paths in the order they were first stored. */
    var names: seq<string>
    /** The text stored under each path. */
    var files: map<string, string>
    /** Every `file` call made so far, in order. */
    ghost var log: seq<Entry>

    /** The table is always what the calls made so far leave behind. */
    ghost predicate Valid()
      reads this
    {
      names == Listed(log) && files == Stored(log)
    }

    /** `new JSZip()`: an empty archive. */
    constructor ()
      ensures Valid()
      ensures log == [] && names == [] && files == map[]
    {
      names := [];
      files := map[];
      log := [];
    }

    /** `zip.file(name, data)`. */
    method File(name: string, data: string)
      modifies this
      ensures files == old(files)[name := data]
      ensures names == if name in old(names) then old(names) else old(names) + [name]
      ensures log == old(log) + [Entry(name, data)]
      ensures old(Valid()) ==> Valid()
    {
      StoredSnoc(log, Entry(name, data));
      if name !in names {
        names := names + [name];
      }
      files := files[name := data];
      log := log + [Entry(name, data)];
    }
  }
}
