/** Extraction of an accepted archive. Readers may be endless, deliver any part of what is asked, or
    fail; the writes stay within both byte budgets whatever they do, and no file or directory that
    the extraction creates is ever in the way of another. */
module ArchiveExtract {
  import opened Common
  import opened Bytes
  import opened ArchivePaths
  import opened ArchivePreflight

  const BUFFER: nat := 65536

  // ---------------------------------------------------------------- readers and writers

  function Prefix(content: nat -> byte, n: nat): (s: seq<byte>)
    ensures |s| == n
  {
    seq(n, i requires 0 <= i < n => content(i))
  }

  /** The data of one entry: a finite or endless stream, read in pieces of any size. */
  class Source {
    const content: nat -> byte
    const length: Option<nat>
    const piece: nat -> nat
    const faultAt: Option<nat>
    var pos: nat
    var calls: nat

    constructor (content: nat -> byte, length: Option<nat>, piece: nat -> nat, faultAt: Option<nat>)
      ensures this.content == content && this.length == length && this.faultAt == faultAt && pos == 0
    {
      this.content, this.length, this.piece, this.faultAt, pos, calls := content, length, piece, faultAt, 0, 0;
    }

    ghost predicate Valid()
      reads this
    {
      length.Some? ==> pos <= length.value
    }

    /** `read` into a buffer of `capacity` bytes: none only at the end. */
    method Read(capacity: nat) returns (ok: bool, bytes: seq<byte>)
      requires Valid() && capacity > 0
      modifies this
      ensures Valid() && pos == old(pos) + |bytes| && |bytes| <= capacity
      ensures Prefix(content, pos) == Prefix(content, old(pos)) + bytes
      ensures ok && bytes == [] ==> length == Some(pos)
      ensures faultAt.None? ==> ok
      ensures !ok ==> bytes == []
    {
      if faultAt == Some(calls) { return false, []; }
      var n := piece(calls) % capacity + 1;
      if length.Some? && n > length.value - pos { n := length.value - pos; }
      var at := pos;
      bytes := seq(n, i requires 0 <= i < n => content(at + i));
      assert Prefix(content, at + n) == Prefix(content, at) + bytes;
      pos, calls := pos + n, calls + 1;
      ok := true;
    }
  }

  /** Where the bytes of an entry go; `room` is what the medium takes before it fails. */
  class Sink {
    var written: seq<byte>
    const room: Option<nat>

    constructor (room: Option<nat>)
      ensures written == [] && this.room == room
    {
      written, this.room := [], room;
    }

    method WriteAll(bytes: seq<byte>) returns (ok: bool)
      modifies this
      ensures ok ==> written == old(written) + bytes
      ensures !ok ==> written == old(written) && room.Some?
    {
      if room.Some? && |written| + |bytes| > room.value { return false; }
      written := written + bytes;
      ok := true;
    }
  }

  /** The running total of the extraction, passed by reference. */
  class Counter {
    var total: nat

    constructor ()
      ensures total == 0
    {
      total := 0;
    }
  }

  datatype CopyResult = Copied(bytes: nat) | ReadFault | TooLarge | WriteFault

  /** What is left of the tighter of the two budgets. */
  function Remaining(fileLimit: nat, bytes: nat, totalLimit: nat, total: nat): nat
    requires bytes <= fileLimit && total <= totalLimit
  {
    if fileLimit - bytes < totalLimit - total then fileLimit - bytes else totalLimit - total
  }

  /** `copy_entry`: terminates on every source. Budgets hold whatever happens; a fault-free copy succeeds
      exactly when the source ends within both of them, and then everything was written. */
  method CopyEntry(reader: Source, writer: Sink, fileLimit: nat, counter: Counter, totalLimit: nat) returns (r: CopyResult)
    requires reader.Valid() && reader.pos == 0 && writer.written == []
    requires fileLimit < U64_LIMIT && counter.total <= totalLimit < U64_LIMIT
    modifies reader, writer, counter
    ensures |writer.written| <= fileLimit && counter.total <= totalLimit
    ensures counter.total == old(counter.total) + |writer.written|
    ensures r.Copied? ==> r.bytes == |writer.written| && reader.length == Some(r.bytes)
    ensures r.Copied? ==> writer.written == Prefix(reader.content, r.bytes)
    ensures r.Copied? ==> r.bytes <= Remaining(fileLimit, 0, totalLimit, old(counter.total))
    ensures r.ReadFault? ==> reader.faultAt.Some?
    ensures r.WriteFault? ==> writer.room.Some?
    ensures r.TooLarge? ==>
              reader.length.None? || reader.length.value > Remaining(fileLimit, 0, totalLimit, old(counter.total))
  {
    var bytes: nat := 0;
    while true
      invariant reader.Valid() && bytes == reader.pos == |writer.written| <= fileLimit
      invariant counter.total == old(counter.total) + bytes <= totalLimit
      invariant writer.written == Prefix(reader.content, reader.pos)
      decreases fileLimit - bytes
    {
      var remaining := Remaining(fileLimit, bytes, totalLimit, counter.total);
      var capacity := if remaining + 1 < BUFFER then remaining + 1 else BUFFER;
      var ok, chunk := reader.Read(capacity);
      if !ok { return ReadFault; }
      if chunk == [] { return Copied(bytes); }
      if |chunk| > remaining { return TooLarge; }
      ok := writer.WriteAll(chunk);
      if !ok { return WriteFault; }
      bytes := bytes + |chunk|;
      counter.total := counter.total + |chunk|;
    }
  }

  // ---------------------------------------------------------------- the destination

  datatype Node = Dir | Plain(data: seq<byte>)

  /** The tree below the destination, which is itself a directory. */
  class Tree {
    var nodes: map<Path, Node>

    constructor ()
      ensures nodes == map[]
    {
      nodes := map[];
    }

    ghost predicate DirOrFree(p: Path)
      reads this
    {
      p in nodes ==> nodes[p].Dir?
    }

    /** Makes `p` and its ancestors directories; fails when one of them is a file. */
    method CreateDirAll(p: Path) returns (ok: bool)
      modifies this
      ensures ok <==> forall q :: AtOrAbove(q, p) ==> old(DirOrFree(q))
      ensures ok ==> forall q :: q in nodes <==> q in old(nodes) || AtOrAbove(q, p)
      ensures ok ==> forall q :: q in nodes ==> nodes[q] == if q in old(nodes) then old(nodes)[q] else Dir
    {
      for k := 0 to |p|
        invariant forall q :: AtOrAbove(q, p) && |q| <= k ==> old(DirOrFree(q))
        invariant forall q :: q in nodes <==> q in old(nodes) || (AtOrAbove(q, p) && |q| <= k)
        invariant forall q :: q in nodes ==> nodes[q] == if q in old(nodes) then old(nodes)[q] else Dir
      {
        var part := p[..k + 1];
        assert AtOrAbove(part, p) && forall q :: AtOrAbove(q, p) && |q| == k + 1 ==> q == part;
        if part in nodes {
          if nodes[part].Plain? { return false; }
        } else {
          nodes := nodes[part := Dir];
        }
      }
      ok := true;
    }

    /** Opens a file that must not be there yet. */
    method CreateNew(p: EntryPath) returns (ok: bool)
      modifies this
      ensures ok <==> p !in old(nodes) && (|p| > 1 ==> p[..|p| - 1] in old(nodes) && old(nodes)[p[..|p| - 1]].Dir?)
      ensures nodes == if ok then old(nodes)[p := Plain([])] else old(nodes)
    {
      var parent := p[..|p| - 1];
      ok := p !in nodes && (|p| > 1 ==> parent in nodes && nodes[parent].Dir?);
      if ok { nodes := nodes[p := Plain([])]; }
    }
  }

  /** The tree holds exactly the entries and their ancestors, files where the entries are files. */
  ghost predicate Shows(nodes: map<Path, Node>, es: seq<Entry>) {
    && (forall p :: p in nodes <==> Below(es, p))
    && (forall p :: p in nodes ==> (nodes[p].Plain? <==> IsFile(es, p)))
  }

  /** Every file holds all of its data. */
  ghost predicate Filled(nodes: map<Path, Node>, es: seq<Entry>, sources: seq<Source>) {
    |es| <= |sources| && forall i :: 0 <= i < |es| && es[i].kind == File ==>
      es[i].path in nodes && nodes[es[i].path] == Plain(Prefix(sources[i].content, es[i].bytes))
  }

  /** What a registered archive and its tree have in common. */
  lemma TreeIsTheOutputs(nodes: map<Path, Node>, m: Outputs, es: seq<Entry>)
    requires Shows(nodes, es) && Describes(m, es)
    ensures nodes.Keys == m.Keys && forall p :: p in nodes ==> (nodes[p].Plain? <==> m[p].kind == File)
  {
    forall p ensures p in nodes <==> p in m {
      assert p in nodes <==> Below(es, p);
    }
  }

  /** Neither creation of a consistent entry meets anything in its way. */
  lemma NothingInTheWay(nodes: map<Path, Node>, es: seq<Entry>, e: Entry)
    requires Shows(nodes, es) && Consistent(es + [e])
    ensures forall q :: AtOrAbove(q, e.path) && q in nodes ==> nodes[q].Dir?
    ensures e.kind == File ==> e.path !in nodes
  {
    var all := es + [e];
    assert all[|es|] == e && forall i :: 0 <= i < |es| ==> all[i] == es[i];
    forall q | AtOrAbove(q, e.path) && q in nodes ensures nodes[q].Dir? {
      forall i | 0 <= i < |es| ensures !(es[i].path == q && es[i].kind == File) {
        assert all[i].path != all[|es|].path;
        assert all[i].kind == File ==> !(all[i].path < all[|es|].path);
      }
    }
    if e.kind == File {
      forall i | 0 <= i < |es| ensures !AtOrAbove(e.path, es[i].path) {
        assert all[i].path != all[|es|].path && !(all[|es|].path < all[i].path);
      }
    }
  }

  // ---------------------------------------------------------------- the extraction

  datatype Reason = Collision | Copy(result: CopyResult) | SizeMismatch
  datatype Extraction = Extracted(bytes: nat, files: nat, entries: seq<(Path, nat)>) | Failed(reason: Reason)

  /** What the preflight established of the entries. */
  predicate Passed(es: seq<Entry>, limits: Limits) {
    && Consistent(es) && TotalBytes(es) <= limits.maxTotalBytes
    && forall i :: 0 <= i < |es| ==> es[i].bytes <= if es[i].kind == File then limits.maxFileBytes else 0
  }

  lemma AcceptablePassed(metas: seq<Meta>, limits: Limits)
    requires Acceptable(metas, limits)
    ensures Passed(Entries(metas, limits), limits)
  {
  }

  /** The files among the entries, with their sizes. */
  function FileList(es: seq<Entry>): seq<(Path, nat)> {
    if es == [] then []
    else
      FileList(es[..|es| - 1]) + (if es[|es| - 1].kind == File then [(es[|es| - 1].path, es[|es| - 1].bytes)] else [])
  }

  /** The reported list names the files with their sizes, one for each, in the order of the entries. */
  lemma {:induction false} FileListIs(es: seq<Entry>, i: nat)
    requires i < |es|
    ensures |FileList(es[..i])| <= i
    ensures es[i].kind == File ==>
              |FileList(es[..i])| < |FileList(es)| && FileList(es)[|FileList(es[..i])|] == (es[i].path, es[i].bytes)
    ensures es[i].kind == Directory ==> FileList(es[..i + 1]) == FileList(es[..i])
    decreases |es|
  {
    var k := |es| - 1;
    if i < k {
      FileListIs(es[..k], i);
      assert es[..k][..i] == es[..i] && es[..k][..i + 1] == es[..i + 1];
    } else {
      FileListShort(es[..k]);
      assert es[..i + 1] == es;
    }
  }

  lemma {:induction false} FileListShort(es: seq<Entry>)
    ensures |FileList(es)| <= |es|
    decreases |es|
  {
    if es != [] { FileListShort(es[..|es| - 1]); }
  }

  lemma ParentAndSelf(p: EntryPath)
    ensures forall q :: AtOrAbove(q, p) <==> q == p || AtOrAbove(q, p[..|p| - 1])
  {
    forall q | AtOrAbove(q, p) && q != p ensures AtOrAbove(q, p[..|p| - 1]) {
      assert q == p[..|q|];
    }
  }

  /** The directories above an entry, and its own directory or empty file. */
  method Place(tree: Tree, e: Entry, ghost es: seq<Entry>) returns (ok: bool)
    requires Shows(tree.nodes, es) && Consistent(es + [e])
    modifies tree
    ensures ok && Shows(tree.nodes, es + [e]) && e.path in tree.nodes
    ensures forall p :: p in old(tree.nodes) ==> p in tree.nodes && tree.nodes[p] == old(tree.nodes[p])
    ensures e.kind == File ==> e.path !in old(tree.nodes)
  {
    hide Consistent, Shows, IsFile, Below;
    ghost var before := tree.nodes;
    NothingInTheWay(before, es, e);
    ParentAndSelf(e.path);
    var parent := e.path[..|e.path| - 1];
    ok := tree.CreateDirAll(parent);
    if !ok { return; }
    if e.kind == Directory {
      ok := tree.CreateDirAll(e.path);
    } else {
      assert |e.path| > 1 ==> AtOrAbove(parent, parent);
      ok := tree.CreateNew(e.path);
    }
    if ok { Extended(before, tree.nodes, es, e); }
  }

  /** A source that can be copied, and is what the entry says. */
  ghost predicate Honest(source: Source, e: Entry) {
    source.faultAt.None? && source.length == Some(e.bytes)
  }

  /** One entry: its directories, its file, its data. */
  method ExtractEntry(tree: Tree, e: Entry, source: Source, room: Option<nat>, counter: Counter, limits: Limits, ghost es: seq<Entry>)
    returns (r: Option<Reason>)
    requires source.Valid() && source.pos == 0
    requires limits.maxFileBytes < U64_LIMIT && counter.total <= limits.maxTotalBytes < U64_LIMIT
    requires Shows(tree.nodes, es) && Consistent(es + [e])
    requires e.bytes <= if e.kind == File then limits.maxFileBytes else 0
    modifies tree, source, counter
    ensures counter.total <= limits.maxTotalBytes
    ensures r != Some(Collision)
    ensures r.None? ==> Shows(tree.nodes, es + [e]) && counter.total == old(counter.total) + e.bytes
    ensures r.None? ==> forall p :: p in old(tree.nodes) ==> p in tree.nodes && tree.nodes[p] == old(tree.nodes[p])
    ensures r.None? && e.kind == File ==> e.path in tree.nodes && tree.nodes[e.path] == Plain(Prefix(source.content, e.bytes))
    ensures r.None? ==> source.length == Some(e.bytes)
    ensures Honest(source, e) && room.None? && old(counter.total) + e.bytes <= limits.maxTotalBytes ==> r.None?
  {
    hide Consistent;
    var ok := Place(tree, e, es);
    if !ok { return Some(Collision); }
    var sink := new Sink(if e.kind == File then room else None);
    var copied := CopyEntry(source, sink, if e.kind == File then limits.maxFileBytes else 0, counter, limits.maxTotalBytes);
    if e.kind == File {
      assert tree.nodes[e.path].Plain? by { BelowMore(es, e, e.path); }
      tree.nodes := tree.nodes[e.path := Plain(sink.written)];
    }
    if !copied.Copied? { return Some(Copy(copied)); }
    if copied.bytes != e.bytes { return Some(SizeMismatch); }
    r := None;
  }

  lemma Extended(before: map<Path, Node>, after: map<Path, Node>, es: seq<Entry>, e: Entry)
    requires Shows(before, es) && Consistent(es + [e])
    requires forall q :: q in after <==> q in before || AtOrAbove(q, e.path)
    requires forall q :: q in after && q != e.path ==> after[q] == if q in before then before[q] else Dir
    requires e.path in after && (after[e.path].Plain? <==> e.kind == File)
    ensures Shows(after, es + [e])
  {
    NothingInTheWay(before, es, e);
    forall p
      ensures p in after <==> Below(es + [e], p)
      ensures p in after ==> (after[p].Plain? <==> IsFile(es + [e], p))
    {
      BelowMore(es, e, p);
    }
  }

  lemma {:induction false} StillConsistent(es: seq<Entry>, i: nat)
    requires i < |es| && Consistent(es)
    ensures Consistent(es[..i]) && Consistent(es[..i] + [es[i]])
  {
    assert es[..i] + [es[i]] == es[..i + 1];
  }

  lemma StillWithin(es: seq<Entry>, limits: Limits, i: nat)
    requires i < |es| && Passed(es, limits)
    ensures TotalBytes(es[..i]) + es[i].bytes <= limits.maxTotalBytes
    ensures TotalBytes(es[..i + 1]) == TotalBytes(es[..i]) + es[i].bytes
    ensures FileList(es[..i + 1]) == FileList(es[..i]) + if es[i].kind == File then [(es[i].path, es[i].bytes)] else []
  {
    TotalGrows(es, i + 1);
    assert es[..i + 1][..i] == es[..i];
  }

  /** The loop of `extract_zip`, on an empty tree and the entries the preflight returned. Nothing is
      ever in the way; an extraction that succeeds leaves exactly the registered outputs, every file
      complete; and it succeeds whenever the entries hold what the directory of the archive says. */
  method Extract(es: seq<Entry>, sources: seq<Source>, room: Option<nat>, limits: Limits, tree: Tree) returns (r: Extraction)
    requires Passed(es, limits) && |sources| == |es| && tree.nodes == map[]
    requires limits.maxFileBytes < U64_LIMIT && limits.maxTotalBytes < U64_LIMIT
    requires forall i :: 0 <= i < |sources| ==> sources[i].Valid() && sources[i].pos == 0
    requires forall i, j :: 0 <= i < j < |sources| ==> sources[i] != sources[j]
    modifies tree, set i | 0 <= i < |sources| :: sources[i]
    ensures r != Failed(Collision)
    ensures r.Extracted? ==> Shows(tree.nodes, es) && Filled(tree.nodes, es, sources)
    ensures r.Extracted? ==> r.bytes == TotalBytes(es) && r.entries == FileList(es) && r.files == |FileList(es)|
    ensures room.None? && (forall i :: 0 <= i < |es| ==> Honest(sources[i], es[i])) ==> r.Extracted?
    ensures r.Extracted? ==> forall i :: 0 <= i < |es| ==> sources[i].length == Some(es[i].bytes)
  {
    hide Consistent, Shows, Filled, Honest, TotalBytes, FileList;
    var counter := new Counter();
    var files: nat := 0;
    var list: seq<(Path, nat)> := [];
    NothingShown(sources);
    for index := 0 to |es|
      invariant forall i :: index <= i < |sources| ==> sources[i].Valid() && sources[i].pos == 0
      invariant fresh(counter) && counter.total == TotalBytes(es[..index]) <= limits.maxTotalBytes
      invariant Shows(tree.nodes, es[..index]) && Filled(tree.nodes, es[..index], sources)
      invariant list == FileList(es[..index]) && files == |list|
      invariant forall i :: 0 <= i < index ==> sources[i].length == Some(es[i].bytes)
    {
      var entry := es[index];
      StillConsistent(es, index);
      StillWithin(es, limits, index);
      ghost var before := tree.nodes;
      var failure := ExtractEntry(tree, entry, sources[index], room, counter, limits, es[..index]);
      if failure.Some? { return Failed(failure.value); }
      assert es[..index] + [entry] == es[..index + 1];
      StillFilled(before, tree.nodes, es, sources, index);
      if entry.kind == File {
        files := files + 1;
        list := list + [(entry.path, entry.bytes)];
      }
    }
    assert es[..|es|] == es;
    r := Extracted(counter.total, files, list);
  }

  lemma NothingShown(sources: seq<Source>)
    ensures Shows(map[], []) && Filled(map[], [], sources) && TotalBytes([]) == 0 && FileList([]) == []
  {
  }

  lemma StillFilled(before: map<Path, Node>, after: map<Path, Node>, es: seq<Entry>, sources: seq<Source>, i: nat)
    requires i < |es| <= |sources| && Filled(before, es[..i], sources)
    requires forall p :: p in before ==> p in after && after[p] == before[p]
    requires es[i].kind == File ==>
               es[i].path in after && after[es[i].path] == Plain(Prefix(sources[i].content, es[i].bytes))
    ensures Filled(after, es[..i + 1], sources)
  {
    assert forall j :: 0 <= j < i ==> es[..i][j] == es[j];
    assert forall j :: 0 <= j <= i ==> es[..i + 1][j] == es[j];
  }

  datatype ZipResult = Refused | Ran(extraction: Extraction)

  /** `extract_zip`: a destination that is not empty and an archive that does not pass are refused, and nothing
      is written. Otherwise nothing is ever in the way; success leaves exactly the outputs the preflight
      registered, and comes whenever the entries hold what the directory of the archive says. */
  method ExtractZip(metas: seq<Meta>, sources: seq<Source>, room: Option<nat>, limits: Limits, tree: Tree)
    returns (r: ZipResult, outputs: Outputs)
    requires |sources| == |metas| && forall i :: 0 <= i < |metas| ==> metas[i].size < U64_LIMIT
    requires limits.maxFileBytes < U64_LIMIT && limits.maxTotalBytes < U64_LIMIT
    requires forall i :: 0 <= i < |sources| ==> sources[i].Valid() && sources[i].pos == 0
    requires forall i, j :: 0 <= i < j < |sources| ==> sources[i] != sources[j]
    modifies tree, set i | 0 <= i < |sources| :: sources[i]
    ensures r == Refused <==> old(tree.nodes) != map[] || !Acceptable(metas, limits)
    ensures r == Refused ==> tree.nodes == old(tree.nodes)
    ensures r != Ran(Failed(Collision))
    ensures r.Ran? ==> Describes(outputs, Entries(metas, limits))
    ensures r.Ran? && r.extraction.Extracted? ==>
              && tree.nodes.Keys == outputs.Keys
              && (forall p :: p in tree.nodes ==> (tree.nodes[p].Plain? <==> outputs[p].kind == File))
              && Filled(tree.nodes, Entries(metas, limits), sources)
              && r.extraction.bytes == TotalBytes(Entries(metas, limits)) <= limits.maxTotalBytes
    ensures r.Ran? && room.None? && (forall i :: 0 <= i < |metas| ==> Honest(sources[i], Entries(metas, limits)[i])) ==>
              r.extraction.Extracted?
  {
    hide Acceptable, Describes, Shows, Filled, Honest, TotalBytes, Passed;
    outputs := map[];
    if tree.nodes != map[] { return Refused, outputs; }
    var entries, registry := Preflight(metas, limits);
    if entries.None? { return Refused, outputs; }
    outputs := registry.outputs;
    var es := entries.value;
    AcceptablePassed(metas, limits);
    var extraction := Extract(es, sources, room, limits, tree);
    if extraction.Extracted? {
      TreeIsTheOutputs(tree.nodes, outputs, es);
      WithinTotal(metas, limits);
    }
    r := Ran(extraction);
  }

  lemma WithinTotal(metas: seq<Meta>, limits: Limits)
    requires Acceptable(metas, limits)
    ensures TotalBytes(Entries(metas, limits)) <= limits.maxTotalBytes
  {
  }
}
