/** The link-both-or-roll-back publish step at the end of `build_fixture`
    (scripts/build_mid360_onboarding_fixture.py), running alone. */
module PublishStep {

  type Path = string
  type Inode = int

  /** The output directory: which inode each entry names. */
  class Directory {
    var entries: map<Path, Inode>

    constructor (initial: map<Path, Inode>)
      ensures entries == initial
    {
      entries := initial;
    }

    /** `os.link`: refuses an existing entry, and may fail for other reasons. */
    method Link(source: Inode, destination: Path, fault: bool) returns (ok: bool)
      modifies this
      ensures ok == (!fault && destination !in old(entries))
      ensures entries == if ok then old(entries)[destination := source] else old(entries)
    {
      ok := !fault && destination !in entries;
      if ok { entries := entries[destination := source]; }
    }

    /** `path.unlink`. */
    method Unlink(path: Path)
      requires path in entries
      modifies this
      ensures entries == old(entries) - {path}
    {
      entries := entries - {path};
    }

    /** Without interference the step is all or nothing: every destination linked to its source and
        nothing else changed, or the directory exactly as it was. It succeeds exactly when no link
        faults, no destination exists and none is named twice. */
    method Publish(sources: seq<Inode>, destinations: seq<Path>, faults: seq<bool>) returns (ok: bool)
      requires |sources| == |destinations| == |faults|
      modifies this
      ensures ok <==> Free(old(entries), destinations, |destinations|) && forall k :: 0 <= k < |faults| ==> !faults[k]
      ensures ok ==> entries == old(entries) + Links(destinations, sources, |destinations|)
      ensures !ok ==> entries == old(entries)
    {
      for k := 0 to |destinations|
        invariant entries == old(entries)
        invariant forall j :: 0 <= j < k ==> destinations[j] !in entries
      {
        if destinations[k] in entries { return false; }
      }
      var created: seq<(Path, Inode)> := [];
      ghost var before := entries;
      for k := 0 to |destinations|
        invariant |created| == k && Free(before, destinations, k)
        invariant forall j :: 0 <= j < k ==> created[j] == (destinations[j], sources[j]) && !faults[j]
        invariant entries == before + Links(destinations, sources, k)
      {
        LinkStep(before, destinations, sources, k);
        ok := Link(sources[k], destinations[k], faults[k]);
        if !ok {
          RollBack(before, destinations, sources, created);
          return;
        }
        var identity := entries[destinations[k]];
        created := created + [(destinations[k], identity)];
      }
      return true;
    }

    /** The failure loop: each created entry is removed if it still is the inode recorded for it. */
    method RollBack(ghost before: map<Path, Inode>, ghost destinations: seq<Path>, ghost sources: seq<Inode>,
                    created: seq<(Path, Inode)>)
      requires |sources| == |destinations| && |created| <= |destinations|
      requires Free(before, destinations, |created|)
      requires forall j :: 0 <= j < |created| ==> created[j] == (destinations[j], sources[j])
      requires entries == before + Links(destinations, sources, |created|)
      modifies this
      ensures entries == before
    {
      LinksAreASegment(destinations, sources, |created|);
      for k := 0 to |created|
        invariant entries == before + Segment(destinations, sources, k, |created|)
      {
        UnlinkStep(before, destinations, sources, k, |created|);
        var (path, expected) := created[k];
        if path in entries && entries[path] == expected {
          Unlink(path);
        }
      }
    }
  }

  /** The first n destinations are absent from the directory and pairwise distinct. */
  ghost predicate Free(m: map<Path, Inode>, destinations: seq<Path>, n: nat)
    requires n <= |destinations|
  {
    && (forall k :: 0 <= k < n ==> destinations[k] !in m)
    && (forall j, k :: 0 <= j < k < n ==> destinations[j] != destinations[k])
  }

  /** The entries made by the first n links. */
  ghost function Links(destinations: seq<Path>, sources: seq<Inode>, n: nat): map<Path, Inode>
    requires n <= |destinations| == |sources|
  {
    if n == 0 then map[] else Links(destinations, sources, n - 1)[destinations[n - 1] := sources[n - 1]]
  }

  lemma {:induction false} LinkKeys(destinations: seq<Path>, sources: seq<Inode>, n: nat)
    requires n <= |destinations| == |sources|
    ensures forall p :: p in Links(destinations, sources, n) <==> exists j :: 0 <= j < n && destinations[j] == p
  {
    if n > 0 {
      LinkKeys(destinations, sources, n - 1);
    }
  }

  lemma LinkStep(before: map<Path, Inode>, destinations: seq<Path>, sources: seq<Inode>, k: nat)
    requires k < |destinations| == |sources| && Free(before, destinations, k)
    ensures destinations[k] !in before + Links(destinations, sources, k) <==> Free(before, destinations, k + 1)
    ensures (before + Links(destinations, sources, k))[destinations[k] := sources[k]] ==
            before + Links(destinations, sources, k + 1)
    ensures Free(before, destinations, |destinations|) ==> Free(before, destinations, k + 1)
  {
    LinkKeys(destinations, sources, k);
  }

  /** The entries made by the links from lo up to n. */
  ghost function Segment(destinations: seq<Path>, sources: seq<Inode>, lo: nat, n: nat): map<Path, Inode>
    requires lo <= n <= |destinations| == |sources|
    decreases n - lo
  {
    if lo == n then map[] else Segment(destinations, sources, lo + 1, n)[destinations[lo] := sources[lo]]
  }

  lemma {:induction false} SegmentKeys(destinations: seq<Path>, sources: seq<Inode>, lo: nat, n: nat)
    requires lo <= n <= |destinations| == |sources|
    ensures forall p :: p in Segment(destinations, sources, lo, n) <==> exists j :: lo <= j < n && destinations[j] == p
    decreases n - lo
  {
    if lo < n {
      SegmentKeys(destinations, sources, lo + 1, n);
    }
  }

  lemma UnlinkStep(before: map<Path, Inode>, destinations: seq<Path>, sources: seq<Inode>, lo: nat, n: nat)
    requires lo < n <= |destinations| == |sources| && Free(before, destinations, n)
    ensures var now := before + Segment(destinations, sources, lo, n);
      && destinations[lo] in now && now[destinations[lo]] == sources[lo]
      && now - {destinations[lo]} == before + Segment(destinations, sources, lo + 1, n)
  {
    SegmentKeys(destinations, sources, lo + 1, n);
    assert destinations[lo] !in Segment(destinations, sources, lo + 1, n);
  }

  lemma {:induction false} SegmentGrows(destinations: seq<Path>, sources: seq<Inode>, lo: nat, n: nat)
    requires lo <= n < |destinations| == |sources|
    ensures (forall i, j :: lo <= i < j <= n ==> destinations[i] != destinations[j]) ==>
      Segment(destinations, sources, lo, n + 1) == Segment(destinations, sources, lo, n)[destinations[n] := sources[n]]
    decreases n - lo
  {
    if lo < n {
      SegmentGrows(destinations, sources, lo + 1, n);
    }
  }

  lemma {:induction false} LinksAreASegment(destinations: seq<Path>, sources: seq<Inode>, n: nat)
    requires n <= |destinations| == |sources|
    requires forall i, j :: 0 <= i < j < n ==> destinations[i] != destinations[j]
    ensures Links(destinations, sources, n) == Segment(destinations, sources, 0, n)
  {
    if n > 0 {
      LinksAreASegment(destinations, sources, n - 1);
      SegmentGrows(destinations, sources, 0, n - 1);
    }
  }
}
