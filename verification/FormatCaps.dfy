/** The announcement of the producer's formats: contiguous entries of one fourcc share a run, their
    modifiers and plane counts stay in flat parallel arrays. Nothing is lost by it. */
module FormatCaps {
  import opened Common
  import opened PoolSpec

  function Repeat(x: nat, n: nat): (s: seq<nat>)
    ensures |s| == n
  {
    seq(n, _ => x)
  }

  /** The fourccs a list of runs stands for. */
  function Expand(fourccs: seq<nat>, counts: seq<nat>): seq<nat>
    requires |fourccs| == |counts|
  {
    if fourccs == [] then []
    else
      var k := |fourccs| - 1;
      Expand(fourccs[..k], counts[..k]) + Repeat(fourccs[k], counts[k])
  }

  /** Runs as long as can be, and none empty. */
  predicate Canonical(fourccs: seq<nat>, counts: seq<nat>) {
    && |fourccs| == |counts|
    && (forall i :: 0 <= i < |counts| ==> counts[i] > 0)
    && (forall i :: 0 < i < |fourccs| ==> fourccs[i - 1] != fourccs[i])
  }

  function Fourccs(formats: seq<Format>): (s: seq<nat>)
    ensures |s| == |formats| && forall i :: 0 <= i < |s| ==> s[i] == formats[i].fourcc
  {
    seq(|formats|, i requires 0 <= i < |formats| => formats[i].fourcc)
  }

  /** What a receiver makes of the four arrays. */
  function Receive(fourccs: seq<nat>, counts: seq<nat>, modifiers: seq<nat>, planes: seq<nat>): (r: seq<Format>)
    requires |fourccs| == |counts| && |Expand(fourccs, counts)| == |modifiers| == |planes|
    ensures |r| == |modifiers|
  {
    seq(|modifiers|, i requires 0 <= i < |modifiers| => Format(Expand(fourccs, counts)[i], modifiers[i], planes[i]))
  }

  lemma {:induction false} ExpandNonempty(fourccs: seq<nat>, counts: seq<nat>)
    requires Canonical(fourccs, counts) && fourccs != []
    ensures Expand(fourccs, counts) != [] && Expand(fourccs, counts)[|Expand(fourccs, counts)| - 1] == fourccs[|fourccs| - 1]
  {
  }

  /** The runs of a list are determined by it. */
  lemma {:induction false} RunsUnique(fs: seq<nat>, cs: seq<nat>, gs: seq<nat>, ds: seq<nat>)
    requires Canonical(fs, cs) && Canonical(gs, ds) && Expand(fs, cs) == Expand(gs, ds)
    ensures fs == gs && cs == ds
    decreases |fs|
  {
    hide Expand, Repeat, Canonical;
    Lengths(fs, cs);
    Lengths(gs, ds);
    if fs != [] && gs != [] {
      var k, l := |fs| - 1, |gs| - 1;
      LastApart(fs, cs);
      LastApart(gs, ds);
      LastRun(Expand(fs[..k], cs[..k]), fs[k], cs[k], Expand(gs[..l], ds[..l]), ds[l]);
      RunsUnique(fs[..k], cs[..k], gs[..l], ds[..l]);
      assert fs == fs[..k] + [fs[k]] && gs == gs[..l] + [gs[l]];
      assert cs == cs[..k] + [cs[k]] && ds == ds[..l] + [ds[l]];
    }
  }

  lemma Lengths(fs: seq<nat>, cs: seq<nat>)
    requires Canonical(fs, cs)
    ensures |fs| == |cs| && (Expand(fs, cs) == [] <==> fs == [])
  {
    if fs != [] { ExpandNonempty(fs, cs); }
  }

  /** The last run of a list, and what comes before it. */
  lemma LastApart(fs: seq<nat>, cs: seq<nat>)
    requires Canonical(fs, cs) && fs != []
    ensures
      var k := |fs| - 1;
      var f := Expand(fs[..k], cs[..k]);
      && Canonical(fs[..k], cs[..k]) && Expand(fs, cs) == f + Repeat(fs[k], cs[k])
      && Expand(fs, cs) != [] && Expand(fs, cs)[|Expand(fs, cs)| - 1] == fs[k]
      && (f != [] ==> f[|f| - 1] != fs[k])
  {
    var k := |fs| - 1;
    ExpandNonempty(fs, cs);
    if k > 0 { ExpandNonempty(fs[..k], cs[..k]); }
  }

  lemma LastRun(f: seq<nat>, x: nat, c: nat, g: seq<nat>, d: nat)
    requires f + Repeat(x, c) == g + Repeat(x, d)
    requires (f != [] ==> f[|f| - 1] != x) && (g != [] ==> g[|g| - 1] != x)
    ensures f == g && c == d
  {
    var s, t := f + Repeat(x, c), g + Repeat(x, d);
    assert |f| + c == |g| + d;
    if g != [] { assert s[|g| - 1] == t[|g| - 1]; }
    if f != [] { assert s[|f| - 1] == t[|f| - 1]; }
    assert f == s[..|f|] && g == t[..|g|];
  }

  /** `negotiation_fill_format_caps`, into the caller's scratch arrays; `runs` of the first two are used. */
  method Fill(formats: seq<Format>, fourccs: array<nat>, counts: array<nat>, modifiers: array<nat>, planes: array<nat>)
    returns (runs: nat)
    requires |formats| < U32_LIMIT
    requires |formats| <= fourccs.Length && |formats| <= counts.Length
    requires |formats| <= modifiers.Length && |formats| <= planes.Length
    requires fourccs != counts && fourccs != modifiers && fourccs != planes
    requires counts != modifiers && counts != planes && modifiers != planes
    modifies fourccs, counts, modifiers, planes
    ensures runs <= |formats| && Canonical(fourccs[..runs], counts[..runs])
    ensures Expand(fourccs[..runs], counts[..runs]) == Fourccs(formats)
    ensures forall i :: 0 <= i < |formats| ==> modifiers[i] == formats[i].modifier && planes[i] == formats[i].planeCount
    ensures Receive(fourccs[..runs], counts[..runs], modifiers[..|formats|], planes[..|formats|]) == formats
  {
    hide Expand, Canonical;
    runs := 0;
    Nothing();
    for i := 0 to |formats|
      invariant runs <= i && (i > 0 ==> runs > 0 && fourccs[runs - 1] == formats[i - 1].fourcc)
      invariant Canonical(fourccs[..runs], counts[..runs])
      invariant Expand(fourccs[..runs], counts[..runs]) == Fourccs(formats[..i])
      invariant forall j :: 0 <= j < i ==> modifiers[j] == formats[j].modifier && planes[j] == formats[j].planeCount
    {
      var e := formats[i];
      modifiers[i], planes[i] := e.modifier, e.planeCount;
      assert Fourccs(formats[..i + 1]) == Fourccs(formats[..i]) + [e.fourcc];
      ghost var fs, cs := fourccs[..runs], counts[..runs];
      if runs == 0 || fourccs[runs - 1] != e.fourcc {
        fourccs[runs], counts[runs] := e.fourcc, 1;
        NewRun(fs, cs, e.fourcc);
        runs := runs + 1;
        assert fourccs[..runs] == fs + [e.fourcc] && counts[..runs] == cs + [1];
      } else {
        counts[runs - 1] := counts[runs - 1] + 1;
        LongerRun(fs, cs);
        assert fourccs[..runs] == fs && counts[..runs] == cs[runs - 1 := cs[runs - 1] + 1];
      }
    }
    assert formats[..|formats|] == formats;
  }

  lemma Nothing()
    ensures Canonical([], []) && Expand([], []) == Fourccs([])
  {
  }

  lemma NewRun(fs: seq<nat>, cs: seq<nat>, x: nat)
    requires Canonical(fs, cs) && (fs != [] ==> fs[|fs| - 1] != x)
    ensures Canonical(fs + [x], cs + [1]) && Expand(fs + [x], cs + [1]) == Expand(fs, cs) + [x]
  {
    RunAdded(fs, cs, x);
    NewCanonical(fs, cs, x);
  }

  lemma RunAdded(fs: seq<nat>, cs: seq<nat>, x: nat)
    requires |fs| == |cs|
    ensures Expand(fs + [x], cs + [1]) == Expand(fs, cs) + [x]
  {
    assert (fs + [x])[..|fs|] == fs && (cs + [1])[..|fs|] == cs;
    assert Repeat(x, 1) == [x];
  }

  lemma NewCanonical(fs: seq<nat>, cs: seq<nat>, x: nat)
    requires Canonical(fs, cs) && (fs != [] ==> fs[|fs| - 1] != x)
    ensures Canonical(fs + [x], cs + [1])
  {
  }

  lemma LongerRun(fs: seq<nat>, cs: seq<nat>)
    requires Canonical(fs, cs) && fs != []
    ensures var k := |fs| - 1;
            Canonical(fs, cs[k := cs[k] + 1]) && Expand(fs, cs[k := cs[k] + 1]) == Expand(fs, cs) + [fs[k]]
  {
    var k := |fs| - 1;
    assert cs[k := cs[k] + 1][..k] == cs[..k];
    assert Repeat(fs[k], cs[k] + 1) == Repeat(fs[k], cs[k]) + [fs[k]];
  }
}
