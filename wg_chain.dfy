/**
 * The hop-chain data model of src/multihop/config.go: an ordered list of
 * WireGuard hops, each with its own firewall mark, and the accessors the
 * policy-routing setup uses.
 */
module WgChain {
  import opened Wrappers

  datatype Hop = Hop(
    name: string,
    role: string,
    iface: string,
    listenPort: int,
    fwMark: int,
    endpoint: string,
    publicKey: string)

  datatype Chain = Chain(name: string, hops: seq<Hop>)
  {
    /** `Entry`: the first, client-facing hop; None for an empty chain. */
    function Entry(): (r: Option<Hop>)
      ensures r.None? <==> hops == []
      ensures r.Some? ==> r.value == hops[0]
    {
      if |hops| == 0 then None else Some(hops[0])
    }

    /** `Exit`: the last, internet-facing hop; None for an empty chain. */
    function Exit(): (r: Option<Hop>)
      ensures r.None? <==> hops == []
      ensures r.Some? ==> r.value == hops[|hops| - 1]
    {
      if |hops| == 0 then None else Some(hops[|hops| - 1])
    }
  }

  /** The marks of `hops` that are not zero, in hop order. */
  function NonZeroMarks(hops: seq<Hop>): seq<int>
  {
    if hops == [] then []
    else (if hops[0].fwMark != 0 then [hops[0].fwMark] else []) + NonZeroMarks(hops[1..])
  }

  lemma NonZeroMarksAppend(hops: seq<Hop>, h: Hop)
    ensures NonZeroMarks(hops + [h]) == NonZeroMarks(hops) + (if h.fwMark != 0 then [h.fwMark] else [])
  {
    if hops != [] {
      assert (hops + [h])[1..] == hops[1..] + [h];
    }
  }

  /** `FWMarks`: the loop that collects the chain's non-zero marks. */
  method FWMarks(c: Chain) returns (marks: seq<int>)
    ensures marks == NonZeroMarks(c.hops)
  {
    marks := [];
    var i := 0;
    while i < |c.hops|
      invariant 0 <= i <= |c.hops|
      invariant marks == NonZeroMarks(c.hops[..i])
    {
      var h := c.hops[i];
      assert c.hops[..i + 1] == c.hops[..i] + [h];
      NonZeroMarksAppend(c.hops[..i], h);
      if h.fwMark != 0 {
        marks := marks + [h.fwMark];
      }
      i := i + 1;
    }
    assert c.hops[..i] == c.hops;
  }

  /** No more marks than hops. */
  lemma {:induction false} MarksBounded(hops: seq<Hop>)
    ensures |NonZeroMarks(hops)| <= |hops|
  {
    if hops != [] {
      MarksBounded(hops[1..]);
    }
  }

  /** A mark is listed iff some hop carries it and it is not zero. */
  lemma {:induction false} MarksMembership(hops: seq<Hop>, m: int)
    ensures m in NonZeroMarks(hops) <==> m != 0 && exists i :: 0 <= i < |hops| && hops[i].fwMark == m
  {
    if hops != [] {
      MarksMembership(hops[1..], m);
      if m != 0 && hops[0].fwMark != m && exists i :: 0 <= i < |hops| && hops[i].fwMark == m {
        var i :| 0 <= i < |hops| && hops[i].fwMark == m;
        assert hops[1..][i - 1].fwMark == m;
      }
      if exists i :: 0 <= i < |hops[1..]| && hops[1..][i].fwMark == m {
        var i :| 0 <= i < |hops[1..]| && hops[1..][i].fwMark == m;
        assert hops[i + 1].fwMark == m;
      }
    }
  }

  /** Every listed mark is non-zero. */
  lemma {:induction false} MarksNonZero(hops: seq<Hop>)
    ensures forall k :: 0 <= k < |NonZeroMarks(hops)| ==> NonZeroMarks(hops)[k] != 0
  {
    if hops != [] {
      MarksNonZero(hops[1..]);
    }
  }

  /** When no hop has a zero mark the marks are exactly the hops' marks, in order. */
  lemma {:induction false} MarksAllSet(hops: seq<Hop>)
    requires forall i :: 0 <= i < |hops| ==> hops[i].fwMark != 0
    ensures |NonZeroMarks(hops)| == |hops|
    ensures forall i :: 0 <= i < |hops| ==> NonZeroMarks(hops)[i] == hops[i].fwMark
  {
    if hops != [] {
      MarksAllSet(hops[1..]);
    }
  }

  /** A chain of one hop enters and exits at that hop. */
  lemma SingleHop(c: Chain)
    requires |c.hops| == 1
    ensures c.Entry() == c.Exit() == Some(c.hops[0])
  {
  }
}
