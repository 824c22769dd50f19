/** The preflight of a ZIP archive: entry by entry, a map of outputs is extended or the archive is
    refused. Whether the archive is accepted depends on the set of its entries alone. */
module ArchivePreflight {
  import opened Common
  import opened ArchivePaths

  datatype Kind = File | Directory
  type EntryPath = p: Path | p != [] witness ["a"]
  datatype Entry = Entry(path: EntryPath, kind: Kind, bytes: nat)
  datatype Output = Output(kind: Kind, explicit: bool)
  type Outputs = map<Path, Output>

  datatype Limits = Limits(maxEntries: nat, maxFileBytes: nat, maxTotalBytes: nat, maxDepth: nat)

  // ---------------------------------------------------------------- one entry

  /** `p` is `q` or one of its ancestors. */
  predicate AtOrAbove(p: Path, q: Path) { p != [] && p <= q }

  /** What `register_output` demands of the map before it. */
  predicate Admits(m: Outputs, e: Entry) {
    && (e.path in m ==> m[e.path].kind == Directory && e.kind == Directory && !m[e.path].explicit)
    && forall k :: 0 < k < |e.path| && e.path[..k] in m ==> m[e.path[..k]].kind == Directory
  }

  /** The map after it. */
  function Registered(m: Outputs, e: Entry): (r: Outputs) {
    map p | p in m.Keys + Prefixes(e.path) :: OutputAt(m, e, p)
  }

  function OutputAt(m: Outputs, e: Entry, p: Path): Output {
    if p == e.path then Output(if p in m then m[p].kind else e.kind, true)
    else if p in m then m[p] else Output(Directory, false)
  }

  function Prefixes(p: Path): (s: set<Path>)
    ensures forall q :: q in s <==> AtOrAbove(q, p)
  {
    var s := set k | 0 < k <= |p| :: p[..k];
    assert forall q :: AtOrAbove(q, p) ==> q == p[..|q|] && 0 < |q| <= |p|;
    s
  }

  // ---------------------------------------------------------------- consistent archives

  /** All paths differ, and no file is an ancestor of anything. */
  predicate Consistent(es: seq<Entry>) {
    && (forall i, j :: 0 <= i < j < |es| ==> es[i].path != es[j].path)
    && (forall i, j :: 0 <= i < |es| && 0 <= j < |es| && es[i].kind == File ==> !(es[i].path < es[j].path))
  }

  predicate Below(es: seq<Entry>, p: Path) { exists i :: 0 <= i < |es| && AtOrAbove(p, es[i].path) }
  predicate Named(es: seq<Entry>, p: Path) { exists i :: 0 <= i < |es| && es[i].path == p }
  predicate IsFile(es: seq<Entry>, p: Path) { exists i :: 0 <= i < |es| && es[i].path == p && es[i].kind == File }

  /** The map holds the entries and their ancestors, with the right kinds. */
  ghost predicate Describes(m: Outputs, es: seq<Entry>) {
    && (forall p :: p in m <==> Below(es, p))
    && (forall p :: p in m ==> (m[p].explicit <==> Named(es, p)))
    && (forall p :: p in m ==> (m[p].kind == File <==> IsFile(es, p)))
  }

  /** The map of a consistent archive is closed under ancestors, and no file in it has anything below. */
  lemma ClosedAndFilesAreLeaves(m: Outputs, es: seq<Entry>)
    requires Describes(m, es) && Consistent(es)
    ensures forall p, q :: q in m && AtOrAbove(p, q) ==> p in m
    ensures forall p, q :: p in m && q in m && m[p].kind == File ==> !(p < q)
  {
    forall p, q | q in m && AtOrAbove(p, q) ensures p in m {
      var i :| 0 <= i < |es| && AtOrAbove(q, es[i].path);
      assert AtOrAbove(p, es[i].path);
    }
    forall p, q | p in m && q in m && m[p].kind == File ensures !(p < q) {
      var i :| 0 <= i < |es| && es[i].path == p && es[i].kind == File;
      var j :| 0 <= j < |es| && AtOrAbove(q, es[j].path);
      var file, below := es[i].path, es[j].path;
      assert !(file < below);
    }
  }

  /** An entry is admitted exactly when it keeps the archive consistent. */
  lemma AdmitsExactly(m: Outputs, es: seq<Entry>, e: Entry)
    requires Describes(m, es) && Consistent(es)
    ensures Admits(m, e) <==> Consistent(es + [e])
  {
    var all := es + [e];
    assert forall i :: 0 <= i < |es| ==> all[i] == es[i];
    if Admits(m, e) { AdmittedConsistent(m, es, e); }
    if Consistent(all) { ConsistentAdmitted(m, es, e); }
  }

  lemma AdmittedConsistent(m: Outputs, es: seq<Entry>, e: Entry)
    requires Describes(m, es) && Consistent(es) && Admits(m, e)
    ensures Consistent(es + [e])
  {
    forall i | 0 <= i < |es|
      ensures es[i].path != e.path && (es[i].kind == File ==> !(es[i].path < e.path)) && (e.kind == File ==> !(e.path < es[i].path))
    {
      var p := es[i].path;
      assert AtOrAbove(p, p) && p in m && Named(es, p);
      assert es[i].kind == File ==> IsFile(es, p);
      assert p < e.path ==> p == e.path[..|p|];
      assert e.path < p ==> Below(es, e.path);
    }
  }

  lemma ConsistentAdmitted(m: Outputs, es: seq<Entry>, e: Entry)
    requires Describes(m, es) && Consistent(es + [e])
    ensures Admits(m, e)
  {
    var all := es + [e];
    assert all[|es|] == e;
    assert forall i :: 0 <= i < |es| ==> all[i] == es[i];
    if e.path in m {
      var i :| 0 <= i < |es| && AtOrAbove(e.path, es[i].path);
      assert all[i].path != e.path && e.path < all[i].path;
      assert !Named(es, e.path) && !IsFile(es, e.path);
    }
    forall k | 0 < k < |e.path| && e.path[..k] in m ensures m[e.path[..k]].kind == Directory {
      var p := e.path[..k];
      assert p < e.path;
      forall i | 0 <= i < |es| ensures !(es[i].path == p && es[i].kind == File) {
        assert all[i].kind == File ==> !(all[i].path < all[|es|].path);
      }
    }
  }

  lemma RegisteredDescribes(m: Outputs, es: seq<Entry>, e: Entry)
    requires Describes(m, es) && Admits(m, e)
    ensures Describes(Registered(m, e), es + [e])
  {
    var all, r := es + [e], Registered(m, e);
    assert all[|es|] == e && forall i :: 0 <= i < |es| ==> all[i] == es[i];
    forall p
      ensures p in r <==> Below(all, p)
      ensures Named(all, p) <==> Named(es, p) || p == e.path
      ensures IsFile(all, p) <==> IsFile(es, p) || (p == e.path && e.kind == File)
    {
      BelowMore(es, e, p);
    }
    forall p | p in r
      ensures r[p].explicit <==> Named(all, p)
      ensures r[p].kind == File <==> IsFile(all, p)
    {
      if p !in m {
        assert !Below(es, p);
        assert forall i :: 0 <= i < |es| ==> AtOrAbove(es[i].path, es[i].path);
      } else if p != e.path && AtOrAbove(p, e.path) {
        assert p == e.path[..|p|];
      }
    }
  }

  lemma BelowMore(es: seq<Entry>, e: Entry, p: Path)
    ensures Below(es + [e], p) <==> Below(es, p) || AtOrAbove(p, e.path)
    ensures Named(es + [e], p) <==> Named(es, p) || p == e.path
    ensures IsFile(es + [e], p) <==> IsFile(es, p) || (p == e.path && e.kind == File)
  {
    var all := es + [e];
    assert all[|es|] == e && forall i :: 0 <= i < |es| ==> all[i] == es[i];
  }

  // ---------------------------------------------------------------- order does not matter

  lemma {:induction false} TwoOccurrences<T>(s: seq<T>, x: T)
    requires multiset(s)[x] >= 2
    ensures exists i, j :: 0 <= i < j < |s| && s[i] == x && s[j] == x
  {
    var k := |s| - 1;
    assert s == s[..k] + [s[k]];
    if s[k] == x {
      assert x in s[..k];
      var i :| 0 <= i < k && s[..k][i] == x;
      assert s[i] == x;
    } else {
      TwoOccurrences(s[..k], x);
      var i, j :| 0 <= i < j < k && s[..k][i] == x && s[..k][j] == x;
      assert s[i] == x && s[j] == x;
    }
  }

  lemma TwiceCounted<T>(s: seq<T>, i: nat, j: nat)
    requires i < j < |s| && s[i] == s[j]
    ensures multiset(s)[s[i]] >= 2
  {
    assert s == s[..j] + [s[j]] + s[j + 1..];
    assert s[..j][i] == s[i];
  }

  lemma ConsistentTransfers(es: seq<Entry>, fs: seq<Entry>)
    requires multiset(es) == multiset(fs) && Consistent(es)
    ensures Consistent(fs)
  {
    forall i | 0 <= i < |fs| ensures fs[i] in es {
      assert fs[i] in multiset(fs);
    }
    forall i, j | 0 <= i < j < |fs| ensures fs[i].path != fs[j].path {
      if fs[i] == fs[j] {
        TwiceCounted(fs, i, j);
        TwoOccurrences(es, fs[i]);
        assert false;
      } else {
        assert fs[i] in es && fs[j] in es;
      }
    }
    forall i, j | 0 <= i < |fs| && 0 <= j < |fs| && fs[i].kind == File ensures !(fs[i].path < fs[j].path) {
      assert fs[i] in es && fs[j] in es;
    }
  }

  /** Rearranging the entries of an archive does not change whether they are consistent. */
  lemma ConsistentInAnyOrder(es: seq<Entry>, fs: seq<Entry>)
    requires multiset(es) == multiset(fs)
    ensures Consistent(es) <==> Consistent(fs)
  {
    if Consistent(es) { ConsistentTransfers(es, fs); }
    if Consistent(fs) { ConsistentTransfers(fs, es); }
  }

  /** Nor does it change the map of outputs. */
  lemma SameOutputs(m: Outputs, n: Outputs, es: seq<Entry>, fs: seq<Entry>)
    requires multiset(es) == multiset(fs) && Describes(m, es) && Describes(n, fs)
    ensures m == n
  {
    forall e: Entry ensures e in es <==> e in fs {
      assert e in multiset(es) <==> e in multiset(fs);
    }
    forall p: Path
      ensures Below(es, p) <==> Below(fs, p)
      ensures Named(es, p) <==> Named(fs, p)
      ensures IsFile(es, p) <==> IsFile(fs, p)
    {
      SameEntries(es, fs, p);
      SameEntries(fs, es, p);
    }
  }

  lemma SameEntries(es: seq<Entry>, fs: seq<Entry>, p: Path)
    requires forall i :: 0 <= i < |es| ==> es[i] in fs
    ensures Below(es, p) ==> Below(fs, p)
    ensures Named(es, p) ==> Named(fs, p)
    ensures IsFile(es, p) ==> IsFile(fs, p)
  {
  }

  // ---------------------------------------------------------------- the preflight

  /** What the central directory says of one entry. */
  datatype Meta = Meta(name: string, encrypted: bool, isDir: bool, unixMode: Option<nat>, size: nat)

  const TYPE_MASK: nat := 0x1000
  const REGULAR: nat := 8
  const DIRECTORY: nat := 4

  function KindOf(f: Meta): Kind { if f.isDir then Directory else File }

  /** The file type bits (the top four of sixteen) are absent or fit the kind. */
  predicate ModeFits(f: Meta) {
    f.unixMode.Some? ==>
      var fileType := f.unixMode.value / TYPE_MASK % 16;
      fileType == 0 || (fileType == REGULAR && !f.isDir) || (fileType == DIRECTORY && f.isDir)
  }

  predicate SizeFits(f: Meta, limits: Limits) {
    if f.isDir then f.size == 0 else f.size <= limits.maxFileBytes
  }

  predicate MetaFits(f: Meta, limits: Limits) {
    !f.encrypted && ModeFits(f) && RelativePath(f.name, limits.maxDepth).Path? && SizeFits(f, limits)
  }

  /** The type bits of a Unix mode, and what is behind them: plain files and directories pass when the name says the
      same, modes without a type pass, and symbolic links, devices, pipes and sockets do not. */
  lemma ModeAnswers(f: Meta, permissions: nat, fileType: nat, above: nat)
    requires permissions < 0x1000 && fileType < 16 && f.unixMode == Some(above * 0x10000 + fileType * 0x1000 + permissions)
    ensures ModeFits(f) <==>
            fileType == 0 || (fileType == 8 && !f.isDir) || (fileType == 4 && f.isDir)
  {
    TypeBits(permissions, fileType, above);
  }

  lemma TypeBits(permissions: nat, fileType: nat, above: nat)
    requires permissions < 0x1000 && fileType < 16
    ensures (above * 0x10000 + fileType * 0x1000 + permissions) / 0x1000 % 16 == fileType
  {
    var q := above * 16 + fileType;
    assert above * 0x10000 + fileType * 0x1000 + permissions == q * 0x1000 + permissions;
    assert (q * 0x1000 + permissions) / 0x1000 == q;
  }

  /** An entry passes on its own if and only if it is not encrypted, its mode fits, its name is a relative path, and
      it is a directory without data or a file of at most the allowed size. */
  lemma EntryAnswers(f: Meta, limits: Limits)
    ensures MetaFits(f, limits) <==>
            && !f.encrypted && ModeFits(f) && RelativePath(f.name, limits.maxDepth).Path?
            && !(f.isDir && f.size > 0) && !(!f.isDir && f.size > limits.maxFileBytes)
    ensures f.unixMode.None? ==> ModeFits(f)
  {
  }

  function EntryOf(f: Meta, limits: Limits): Entry
    requires MetaFits(f, limits)
  {
    Entry(RelativePath(f.name, limits.maxDepth).path, KindOf(f), f.size)
  }

  function Entries(metas: seq<Meta>, limits: Limits): (es: seq<Entry>)
    requires forall i :: 0 <= i < |metas| ==> MetaFits(metas[i], limits)
    ensures |es| == |metas| && forall i :: 0 <= i < |es| ==> es[i] == EntryOf(metas[i], limits)
  {
    seq(|metas|, i requires 0 <= i < |metas| => EntryOf(metas[i], limits))
  }

  /** Bytes of all files together. */
  function TotalBytes(es: seq<Entry>): nat {
    if es == [] then 0
    else TotalBytes(es[..|es| - 1]) + (if es[|es| - 1].kind == File then es[|es| - 1].bytes else 0)
  }

  lemma {:induction false} TotalGrows(es: seq<Entry>, n: nat)
    requires n <= |es|
    ensures TotalBytes(es[..n]) <= TotalBytes(es)
    decreases |es| - n
  {
    if n == |es| {
      assert es[..n] == es;
    } else {
      TotalGrows(es, n + 1);
      assert es[..n + 1][..n] == es[..n];
    }
  }

  lemma {:induction false} ConsistentPrefix(es: seq<Entry>, n: nat)
    requires n <= |es| && Consistent(es)
    ensures Consistent(es[..n])
  {
  }

  /** The archives that pass: each entry fits, all together fit the budgets, and the paths make a tree. */
  predicate Acceptable(metas: seq<Meta>, limits: Limits) {
    && |metas| <= limits.maxEntries
    && (forall i :: 0 <= i < |metas| ==> MetaFits(metas[i], limits))
    && TotalBytes(Entries(metas, limits)) <= limits.maxTotalBytes
    && Consistent(Entries(metas, limits))
  }

  // ---------------------------------------------------------------- the order of entries

  function Without<T>(s: seq<T>, j: nat): seq<T>
    requires j < |s|
  {
    s[..j] + s[j + 1..]
  }

  lemma OneLess<T>(s: seq<T>, j: nat)
    requires j < |s|
    ensures multiset(s) == multiset(Without(s, j)) + multiset{s[j]}
  {
    assert s == s[..j] + [s[j]] + s[j + 1..];
  }

  lemma Cancelled<T>(a: multiset<T>, b: multiset<T>, x: T)
    requires a + multiset{x} == b + multiset{x}
    ensures a == b
  {
    assert a == a + multiset{x} - multiset{x} && b == b + multiset{x} - multiset{x};
  }

  /** Where the last element of `s` is in a rearrangement, and what is left of both without it. */
  lemma FindLast<T>(s: seq<T>, t: seq<T>) returns (j: nat)
    requires s != [] && multiset(s) == multiset(t)
    ensures j < |t| && t[j] == s[|s| - 1] && multiset(Without(t, j)) == multiset(s[..|s| - 1])
  {
    var k := |s| - 1;
    assert s[k] in multiset(s);
    assert s[k] in multiset(t);
    j :| 0 <= j < |t| && t[j] == s[k];
    OneLess(t, j);
    OneLess(s, k);
    assert Without(s, k) == s[..k];
    Cancelled(multiset(Without(t, j)), multiset(s[..k]), s[k]);
  }

  function Weight(e: Entry): nat { if e.kind == File then e.bytes else 0 }

  lemma {:induction false} TotalWithout(es: seq<Entry>, j: nat)
    requires j < |es|
    ensures TotalBytes(es) == TotalBytes(Without(es, j)) + Weight(es[j])
    decreases |es|
  {
    var k := |es| - 1;
    if j < k {
      TotalWithout(es[..k], j);
      assert Without(es, j)[..k - 1] == Without(es[..k], j);
    } else {
      assert Without(es, j) == es[..k];
    }
  }

  lemma {:induction false} SameTotal(es: seq<Entry>, fs: seq<Entry>)
    requires multiset(es) == multiset(fs)
    ensures TotalBytes(es) == TotalBytes(fs)
    decreases |es|
  {
    if es == [] {
      assert |multiset(fs)| == 0;
    } else {
      var j := FindLast(es, fs);
      SameTotal(es[..|es| - 1], Without(fs, j));
      TotalWithout(fs, j);
    }
  }

  lemma SameMetas(metas: seq<Meta>, others: seq<Meta>)
    requires multiset(metas) == multiset(others)
    ensures |metas| == |others| && forall i :: 0 <= i < |others| ==> others[i] in metas
  {
    assert |metas| == |multiset(metas)| && |others| == |multiset(others)|;
    forall i | 0 <= i < |others| ensures others[i] in metas {
      assert others[i] in multiset(others);
    }
  }

  lemma EntriesWithout(metas: seq<Meta>, j: nat, limits: Limits)
    requires j < |metas| && forall i :: 0 <= i < |metas| ==> MetaFits(metas[i], limits)
    ensures forall i :: 0 <= i < |metas| - 1 ==> MetaFits(Without(metas, j)[i], limits)
    ensures Entries(Without(metas, j), limits) == Without(Entries(metas, limits), j)
  {
    hide MetaFits;
  }

  lemma {:induction false} SameEntryBag(metas: seq<Meta>, others: seq<Meta>, limits: Limits)
    requires multiset(metas) == multiset(others)
    requires (forall i :: 0 <= i < |metas| ==> MetaFits(metas[i], limits))
          && (forall i :: 0 <= i < |others| ==> MetaFits(others[i], limits))
    ensures multiset(Entries(metas, limits)) == multiset(Entries(others, limits))
    decreases |metas|
  {
    hide MetaFits;
    SameMetas(metas, others);
    if metas != [] {
      var k := |metas| - 1;
      var j := FindLast(metas, others);
      assert metas[..k] == Without(metas, k);
      EntriesWithout(metas, k, limits);
      EntriesWithout(others, j, limits);
      SameEntryBag(Without(metas, k), Without(others, j), limits);
      OneLess(Entries(metas, limits), k);
      OneLess(Entries(others, limits), j);
    }
  }

  lemma AcceptableTransfers(metas: seq<Meta>, others: seq<Meta>, limits: Limits)
    requires multiset(metas) == multiset(others) && Acceptable(metas, limits)
    ensures Acceptable(others, limits)
  {
    hide MetaFits, Consistent;
    SameMetas(metas, others);
    SameEntryBag(metas, others, limits);
    SameTotal(Entries(metas, limits), Entries(others, limits));
    ConsistentInAnyOrder(Entries(metas, limits), Entries(others, limits));
  }

  /** Rearranging the entries of an archive does not change whether it is accepted: budgets, entry checks and
      tree together. */
  lemma OrderDoesNotMatter(metas: seq<Meta>, others: seq<Meta>, limits: Limits)
    requires multiset(metas) == multiset(others)
    ensures Acceptable(metas, limits) <==> Acceptable(others, limits)
  {
    if Acceptable(metas, limits) { AcceptableTransfers(metas, others, limits); }
    if Acceptable(others, limits) { AcceptableTransfers(others, metas, limits); }
  }

  /** The sizes of the files. */
  function FileSizes(metas: seq<Meta>): seq<nat> {
    if metas == [] then [] else (if metas[0].isDir then [] else [metas[0].size]) + FileSizes(metas[1..])
  }

  function Sum(ns: seq<nat>): nat { if ns == [] then 0 else ns[0] + Sum(ns[1..]) }

  lemma {:induction false} SumJoin(a: seq<nat>, b: seq<nat>)
    ensures Sum(a + b) == Sum(a) + Sum(b)
  {
    if a == [] {
      assert a + b == b;
    } else {
      assert (a + b)[1..] == a[1..] + b;
      SumJoin(a[1..], b);
    }
  }

  lemma {:induction false} SizesJoin(metas: seq<Meta>, f: Meta)
    ensures FileSizes(metas + [f]) == FileSizes(metas) + if f.isDir then [] else [f.size]
  {
    if metas == [] {
      assert metas + [f] == [f] && [f][1..] == [];
    } else {
      assert (metas + [f])[1..] == metas[1..] + [f];
      SizesJoin(metas[1..], f);
    }
  }

  lemma NoSizes()
    ensures Sum(FileSizes([])) == 0
  {
  }

  lemma SumOne(f: Meta)
    ensures Sum(if f.isDir then [] else [f.size]) == if f.isDir then 0 else f.size
  {
  }

  lemma EntryWeight(f: Meta, limits: Limits)
    requires MetaFits(f, limits)
    ensures EntryOf(f, limits).kind == (if f.isDir then Directory else File) && EntryOf(f, limits).bytes == f.size
  {
  }

  lemma {:induction false} TotalIsSum(metas: seq<Meta>, limits: Limits)
    requires forall i :: 0 <= i < |metas| ==> MetaFits(metas[i], limits)
    ensures TotalBytes(Entries(metas, limits)) == Sum(FileSizes(metas))
    decreases |metas|
  {
    hide MetaFits, FileSizes, Sum, KindOf;
    if metas == [] {
      NoSizes();
    } else {
      var k := |metas| - 1;
      TotalIsSum(metas[..k], limits);
      SumOne(metas[k]);
      EntryWeight(metas[k], limits);
      assert metas == metas[..k] + [metas[k]];
      SizesJoin(metas[..k], metas[k]);
      SumJoin(FileSizes(metas[..k]), if metas[k].isDir then [] else [metas[k].size]);
      assert Entries(metas, limits)[..k] == Entries(metas[..k], limits);
    }
  }

  /** An archive passes if and only if there are not too many entries, each passes on its own, the file sizes together
      stay within the budget, and the entries make a tree. */
  lemma ArchiveAnswers(metas: seq<Meta>, limits: Limits)
    ensures Acceptable(metas, limits) <==>
            && !(|metas| > limits.maxEntries)
            && (forall f :: f in metas ==> MetaFits(f, limits))
            && !(Sum(FileSizes(metas)) > limits.maxTotalBytes)
            && (forall i :: 0 <= i < |metas| ==> MetaFits(metas[i], limits)) && Consistent(Entries(metas, limits))
  {
    hide MetaFits, Consistent;
    if forall i :: 0 <= i < |metas| ==> MetaFits(metas[i], limits) { TotalIsSum(metas, limits); }
  }

  class Registry {
    var outputs: Outputs

    constructor ()
      ensures outputs == map[]
    {
      outputs := map[];
    }

    /** `register_output`. */
    method Register(e: Entry) returns (ok: bool)
      modifies this
      ensures ok <==> Admits(old(outputs), e)
      ensures ok ==> outputs == Registered(old(outputs), e)
    {
      if e.path in outputs {
        var previous := outputs[e.path];
        if previous.kind != Directory || e.kind != Directory || previous.explicit { return false; }
        outputs := outputs[e.path := previous.(explicit := true)];
      } else {
        outputs := outputs[e.path := Output(e.kind, true)];
      }
      FirstPart(old(outputs), e);
      var k := |e.path| - 1;
      while k > 0
        invariant 0 <= k < |e.path|
        invariant forall j :: k < j < |e.path| && e.path[..j] in old(outputs) ==> old(outputs)[e.path[..j]].kind == Directory
        invariant outputs == PartOf(old(outputs), e, k)
      {
        var parent := e.path[..k];
        NextPart(old(outputs), e, k);
        if parent in outputs {
          if outputs[parent].kind != Directory { return false; }
        } else {
          outputs := outputs[parent := Output(Directory, false)];
        }
        k := k - 1;
      }
      LastPart(old(outputs), e);
      ok := true;
    }
  }

  /** The map when the parents longer than `k` are in. */
  ghost function PartOf(m: Outputs, e: Entry, k: nat): Outputs {
    map p | p in m.Keys + Prefixes(e.path) && (p in m || |p| > k) :: OutputAt(m, e, p)
  }

  lemma FirstPart(m: Outputs, e: Entry)
    requires e.path in m ==> m[e.path].kind == Directory
    ensures PartOf(m, e, |e.path| - 1) == m[e.path := Output(if e.path in m then m[e.path].kind else e.kind, true)]
  {
    assert forall q :: q <= e.path && |q| == |e.path| ==> q == e.path;
  }

  lemma NextPart(m: Outputs, e: Entry, k: nat)
    requires 0 < k < |e.path|
    ensures
      var parent, part := e.path[..k], PartOf(m, e, k);
      && (parent in part <==> parent in m) && (parent in m ==> part[parent] == m[parent])
      && PartOf(m, e, k - 1) == if parent in m then part else part[parent := Output(Directory, false)]
  {
    assert forall q :: q <= e.path && |q| == k ==> q == e.path[..k];
    assert AtOrAbove(e.path[..k], e.path);
  }

  lemma LastPart(m: Outputs, e: Entry)
    ensures PartOf(m, e, 0) == Registered(m, e)
  {
  }

  /** The checks on one entry that do not look at the others. */
  method CheckMeta(file: Meta, limits: Limits) returns (r: Option<Entry>)
    ensures r.Some? <==> MetaFits(file, limits)
    ensures r.Some? ==> r.value == EntryOf(file, limits)
  {
    if file.encrypted { return None; }
    var kind := if file.isDir then Directory else File;
    if file.unixMode.Some? {
      var fileType := file.unixMode.value / TYPE_MASK % 16;
      if !(fileType == 0 || (fileType == REGULAR && kind == File) || (fileType == DIRECTORY && kind == Directory)) {
        return None;
      }
    }
    var path := RelativePathOf(file.name, limits.maxDepth);
    if path.Bad? { return None; }
    if kind == Directory {
      if file.size != 0 { return None; }
    } else {
      if file.size > limits.maxFileBytes { return None; }
    }
    r := Some(Entry(path.path, kind, file.size));
  }

  lemma NothingYet(metas: seq<Meta>, limits: Limits)
    ensures Consistent([]) && Describes(map[], []) && Entries(metas[..0], limits) == [] && TotalBytes([]) == 0
  {
  }

  /** `preflight`. */
  method Preflight(metas: seq<Meta>, limits: Limits) returns (r: Option<seq<Entry>>, registry: Registry)
    requires limits.maxTotalBytes < U64_LIMIT && forall i :: 0 <= i < |metas| ==> metas[i].size < U64_LIMIT
    ensures fresh(registry)
    ensures r.Some? <==> Acceptable(metas, limits)
    ensures r.Some? ==> r.value == Entries(metas, limits) && Describes(registry.outputs, r.value)
  {
    hide Describes, Consistent, Admits, Registered, TotalBytes, MetaFits;
    registry := new Registry();
    if |metas| > limits.maxEntries { return None, registry; }
    var total := 0;
    var entries: seq<Entry> := [];
    NothingYet(metas, limits);
    for index := 0 to |metas|
      invariant forall i :: 0 <= i < index ==> MetaFits(metas[i], limits)
      invariant entries == Entries(metas[..index], limits)
      invariant total == TotalBytes(entries) <= limits.maxTotalBytes
      invariant Consistent(entries) && Describes(registry.outputs, entries)
    {
      var checked := CheckMeta(metas[index], limits);
      if checked.None? { return None, registry; }
      var entry := checked.value;
      NextEntry(metas, limits, index, entries, entry);
      if entry.kind == File {
        if total + entry.bytes >= U64_LIMIT { return None, registry; }
        total := total + entry.bytes;
        if total > limits.maxTotalBytes { return None, registry; }
      }
      AdmitsExactly(registry.outputs, entries, entry);
      if Admits(registry.outputs, entry) { RegisteredDescribes(registry.outputs, entries, entry); }
      var ok := registry.Register(entry);
      if !ok { return None, registry; }
      entries := entries + [entry];
    }
    assert metas[..|metas|] == metas;
    r := Some(entries);
  }

  /** One more entry: what the rest of the archive needs of it. */
  lemma NextEntry(metas: seq<Meta>, limits: Limits, index: nat, es: seq<Entry>, e: Entry)
    requires index < |metas| && forall i :: 0 <= i <= index ==> MetaFits(metas[i], limits)
    requires es == Entries(metas[..index], limits) && e == EntryOf(metas[index], limits)
    ensures es + [e] == Entries(metas[..index + 1], limits)
    ensures TotalBytes(es + [e]) == TotalBytes(es) + if e.kind == File then e.bytes else 0
    ensures Acceptable(metas, limits) ==> TotalBytes(es + [e]) <= limits.maxTotalBytes && Consistent(es + [e])
  {
    assert (es + [e])[..index] == es;
    if Acceptable(metas, limits) {
      var all := Entries(metas, limits);
      assert all[..index + 1] == es + [e];
      TotalGrows(all, index + 1);
      ConsistentPrefix(all, index + 1);
    }
  }
}
