/** The transport stream writer over whole runs of pictures, audio frames and slice changes. */
module TsRun {
  import opened Bytes
  import opened Ts

  /** `cur` is the current slice, `past` everything in earlier slices. */
  datatype Mux = Mux(h265: bool, cur: seq<Packet>, past: seq<Packet>, psi: bool, ccPat: nat, ccPmt: nat, ccV: nat, ccA: nat)

  datatype Op = Video(es: seq<byte>, pts: u64, key: bool) | Audio(es: seq<byte>, pts: u64) | Reset

  function New(h265: bool): Mux { Mux(h265, [], [], false, 0, 0, 0, 0) }

  function EnsurePsi(m: Mux): Mux {
    if m.psi then m
    else m.(cur := m.cur + [PsiPacket(PID_PAT, m.ccPat, PatSection())] + [PsiPacket(PID_PMT, m.ccPmt, PmtSection(m.h265))],
            psi := true, ccPat := (m.ccPat + 1) % 16, ccPmt := (m.ccPmt + 1) % 16)
  }

  /** The bytes of the PES an operation writes. */
  function Data(op: Op): seq<byte>
    requires !op.Reset?
  {
    PesHeader(if op.Video? then STREAM_VIDEO else STREAM_AUDIO, |op.es|, op.pts) + op.es
  }

  function OpPid(op: Op): nat
    requires !op.Reset?
  {
    if op.Video? then PID_VIDEO else PID_AUDIO
  }

  predicate WithClock(op: Op) { op.Video? && op.key }

  function PesOf(m: Mux, op: Op): seq<Packet>
    requires !op.Reset?
  {
    PesPackets(OpPid(op), if op.Video? then m.ccV else m.ccA, Data(op), WithClock(op), op.pts)
  }

  /** An empty picture or audio frame is refused. */
  function Apply(m: Mux, op: Op): Mux {
    match op
    case Reset => m.(past := m.past + m.cur, cur := [], psi := false)
    case Video(es, _, _) =>
      if es == [] then m
      else
        var n := EnsurePsi(m);
        var ps := PesOf(n, op);
        n.(cur := n.cur + ps, ccV := (n.ccV + |ps|) % 16)
    case Audio(es, _) =>
      if es == [] then m
      else
        var n := EnsurePsi(m);
        var ps := PesOf(n, op);
        n.(cur := n.cur + ps, ccA := (n.ccA + |ps|) % 16)
  }

  function Run(h265: bool, ops: seq<Op>): Mux {
    if ops == [] then New(h265) else Apply(Run(h265, ops[..|ops| - 1]), ops[|ops| - 1])
  }

  // ---- continuity counters ----

  /** The packets of one PID. */
  function OnPid(ps: seq<Packet>, pid: nat): seq<Packet> {
    if ps == [] then []
    else OnPid(ps[..|ps| - 1], pid) + if ps[|ps| - 1].pid == pid then [ps[|ps| - 1]] else []
  }

  lemma {:induction false} OnPidMore(a: seq<Packet>, b: seq<Packet>, pid: nat)
    ensures OnPid(a + b, pid) == OnPid(a, pid) + OnPid(b, pid)
    decreases |b|
  {
    if b == [] {
      assert a + b == a;
    } else {
      assert (a + b)[..|a + b| - 1] == a + b[..|b| - 1];
      OnPidMore(a, b[..|b| - 1], pid);
    }
  }

  lemma {:induction false} OnPidUniform(ps: seq<Packet>, own: nat, pid: nat)
    requires forall i :: 0 <= i < |ps| ==> ps[i].pid == own
    ensures OnPid(ps, pid) == if pid == own then ps else []
    decreases |ps|
  {
    if ps != [] {
      OnPidUniform(ps[..|ps| - 1], own, pid);
    }
  }

  /** Packet number `i` of the PID counts `i` modulo 16. */
  ghost predicate Counts(ps: seq<Packet>, pid: nat, next: nat) {
    var own := OnPid(ps, pid);
    next == |own| % 16 && forall i :: 0 <= i < |own| ==> own[i].cc == i % 16
  }

  lemma CountsMore(ps: seq<Packet>, more: seq<Packet>, own: nat, cc: nat, pid: nat, next: nat)
    requires Counts(ps, pid, next) && Sequence(more, own, cc, true) && (pid == own ==> cc == next)
    ensures Counts(ps + more, pid, if pid == own then (next + |more|) % 16 else next)
  {
    hide OnPid, Whole;
    OnPidMore(ps, more, pid);
    OnPidUniform(more, own, pid);
    assert OnPid(ps, pid) + [] == OnPid(ps, pid);
    if pid == own {
      CountOn(OnPid(ps, pid), more, own, cc);
    }
  }

  lemma CountOn(before: seq<Packet>, more: seq<Packet>, own: nat, cc: nat)
    requires (forall i :: 0 <= i < |before| ==> before[i].cc == i % 16) && cc == |before| % 16 && Sequence(more, own, cc, true)
    ensures var all := before + more; (cc + |more|) % 16 == |all| % 16 && forall i :: 0 <= i < |all| ==> all[i].cc == i % 16
  {
    hide Whole;
    var all := before + more;
    forall i | 0 <= i < |all|
      ensures all[i].cc == i % 16
    {
      if i >= |before| {
        AddMod(|before|, i - |before|);
        assert all[i] == more[i - |before|];
      }
    }
    AddMod(|before|, |more|);
  }

  lemma AddMod(a: nat, b: nat)
    ensures (a % 16 + b) % 16 == (a + b) % 16
  {
  }

  /** All packets ever written. */
  function All(m: Mux): seq<Packet> { m.past + m.cur }

  function Next(m: Mux, pid: nat): nat {
    if pid == PID_PAT then m.ccPat else if pid == PID_PMT then m.ccPmt else if pid == PID_VIDEO then m.ccV else m.ccA
  }

  ghost predicate IsPid(pid: nat) { pid == PID_PAT || pid == PID_PMT || pid == PID_VIDEO || pid == PID_AUDIO }

  ghost predicate CountInv(m: Mux) {
    && (forall pid {:trigger IsPid(pid)} :: IsPid(pid) ==> Counts(All(m), pid, Next(m, pid)))
    && (forall i :: 0 <= i < |m.cur| ==> Whole(m.cur[i]))
    && m.psi == (m.cur != [])
    && (m.psi ==> |m.cur| > 2 && m.cur[0] == PsiPacket(PID_PAT, m.cur[0].cc, PatSection())
                  && m.cur[1] == PsiPacket(PID_PMT, m.cur[1].cc, PmtSection(m.h265)))
  }

  lemma NextBounded(m: Mux, pid: nat)
    requires CountInv(m) && IsPid(pid)
    ensures Next(m, pid) < 16
  {
    assert Counts(All(m), pid, Next(m, pid));
  }

  /** A table packet on its own. */
  lemma PsiSequence(pid: nat, cc: nat, section: seq<byte>)
    requires pid < 0x2000 && cc < 16 && |section| <= 179
    ensures Sequence([PsiPacket(pid, cc, section)], pid, cc, true)
  {
    hide BE;
    assert Whole(PsiPacket(pid, cc, section));
  }

  ghost predicate Tables(m: Mux) {
    m.psi && |m.cur| >= 2 && m.cur[0] == PsiPacket(PID_PAT, m.cur[0].cc, PatSection())
    && m.cur[1] == PsiPacket(PID_PMT, m.cur[1].cc, PmtSection(m.h265))
  }

  ghost predicate AllCount(m: Mux) {
    && (forall pid {:trigger IsPid(pid)} :: IsPid(pid) ==> Counts(All(m), pid, Next(m, pid)))
    && (forall i :: 0 <= i < |m.cur| ==> Whole(m.cur[i]))
  }

  lemma PsiCounts(m: Mux)
    requires CountInv(m)
    ensures AllCount(EnsurePsi(m)) && Tables(EnsurePsi(m))
  {
    hide PatSection, PmtSection, PsiPacket, Counts, Whole;
    if !m.psi {
      SectionSizes(m.h265);
      NextBounded(m, PID_PAT); NextBounded(m, PID_PMT);
      var pat, pmt := [PsiPacket(PID_PAT, m.ccPat, PatSection())], [PsiPacket(PID_PMT, m.ccPmt, PmtSection(m.h265))];
      PsiSequence(PID_PAT, m.ccPat, PatSection());
      PsiSequence(PID_PMT, m.ccPmt, PmtSection(m.h265));
      var n := EnsurePsi(m);
      assert All(n) == All(m) + pat + pmt;
      forall pid | IsPid(pid)
        ensures Counts(All(n), pid, Next(n, pid))
      {
        CountsMore(All(m), pat, PID_PAT, m.ccPat, pid, Next(m, pid));
        CountsMore(All(m) + pat, pmt, PID_PMT, m.ccPmt, pid, if pid == PID_PAT then (Next(m, pid) + 1) % 16 else Next(m, pid));
      }
      assert pat[0].cc == m.ccPat && pmt[0].cc == m.ccPmt;
    }
  }

  lemma SectionSizes(h265: bool)
    ensures |PatSection()| <= 179 && |PmtSection(h265)| <= 179
  {
  }

  lemma PesCounts(n: Mux, op: Op)
    requires AllCount(n) && Tables(n) && !op.Reset? && op.es != []
    ensures var ps := PesOf(n, op); var cc := if op.Video? then n.ccV else n.ccA;
      && cc < 16 && ps != [] && Sequence(ps, OpPid(op), cc, true) && Payloads(ps) == Data(op) + Trailer(Data(op), WithClock(op))
      && var t := n.(cur := n.cur + ps, ccV := if op.Video? then (n.ccV + |ps|) % 16 else n.ccV,
                     ccA := if op.Video? then n.ccA else (n.ccA + |ps|) % 16);
         AllCount(t) && |t.cur| > 2 && Tables(t)
  {
    hide PatSection, PmtSection, PsiPacket, Counts, Whole, PesPackets, PesHeader, Trailer;
    var ps, own, cc := PesOf(n, op), OpPid(op), if op.Video? then n.ccV else n.ccA;
    assert IsPid(own);
    CountBound(All(n), own, Next(n, own));
    PesArrives(own, cc, Data(op), WithClock(op), op.pts);
    var t := n.(cur := n.cur + ps, ccV := if op.Video? then (n.ccV + |ps|) % 16 else n.ccV,
                ccA := if op.Video? then n.ccA else (n.ccA + |ps|) % 16);
    assert All(t) == All(n) + ps;
    forall pid | IsPid(pid)
      ensures Counts(All(t), pid, Next(t, pid))
    {
      CountsMore(All(n), ps, own, cc, pid, Next(n, pid));
    }
  }

  lemma CountBound(ps: seq<Packet>, pid: nat, next: nat)
    requires Counts(ps, pid, next)
    ensures next < 16
  {
  }

  lemma ApplyCounts(m: Mux, op: Op)
    requires CountInv(m)
    ensures CountInv(Apply(m, op))
  {
    hide PatSection, PmtSection, PsiPacket, Counts, Whole, PesOf, EnsurePsi, OnPid;
    match op
    case Reset =>
      assert All(Apply(m, op)) == All(m);
      forall pid | IsPid(pid)
        ensures Counts(All(Apply(m, op)), pid, Next(Apply(m, op), pid))
      {
      }
    case Video(es, _, _) =>
      if es != [] {
        PsiCounts(m);
        PesCounts(EnsurePsi(m), op);
      }
    case Audio(es, _) =>
      if es != [] {
        PsiCounts(m);
        PesCounts(EnsurePsi(m), op);
      }
  }

  /** Over any run and any number of slices, each PID counts its packets modulo 16 without a gap,
      and every slice that holds anything starts with the program tables. */
  lemma {:induction false} RunCounts(h265: bool, ops: seq<Op>)
    ensures CountInv(Run(h265, ops))
    decreases |ops|
  {
    hide Apply;
    if ops == [] {
      forall pid | IsPid(pid)
        ensures Counts(All(New(h265)), pid, Next(New(h265), pid))
      {
        assert OnPid([], pid) == [];
      }
    } else {
      RunCounts(h265, ops[..|ops| - 1]);
      ApplyCounts(Run(h265, ops[..|ops| - 1]), ops[|ops| - 1]);
    }
  }

  // ---- what a receiver takes out of a slice ----

  /** The payload units of a PID: a marked packet starts one, the others continue it. */
  function Units(ps: seq<Packet>, pid: nat): seq<seq<byte>> {
    if ps == [] then []
    else
      var before, p := Units(ps[..|ps| - 1], pid), ps[|ps| - 1];
      if p.pid != pid then before
      else if p.start then before + [p.payload]
      else if before == [] then []
      else before[..|before| - 1] + [before[|before| - 1] + p.payload]
  }

  lemma {:induction false} UnitsOther(ps: seq<Packet>, more: seq<Packet>, own: nat, pid: nat)
    requires own != pid && forall i :: 0 <= i < |more| ==> more[i].pid == own
    ensures Units(ps + more, pid) == Units(ps, pid)
    decreases |more|
  {
    if more == [] {
      assert ps + more == ps;
    } else {
      assert (ps + more)[..|ps + more| - 1] == ps + more[..|more| - 1];
      UnitsOther(ps, more[..|more| - 1], own, pid);
    }
  }

  lemma {:induction false} PayloadsMore(a: seq<Packet>, p: Packet)
    ensures Payloads(a + [p]) == Payloads(a) + p.payload
    decreases |a|
  {
    if a == [] {
      assert [p][1..] == [] && p.payload + [] == p.payload && [] + p.payload == p.payload;
    } else {
      assert (a + [p])[0] == a[0] && (a + [p])[1..] == a[1..] + [p];
      PayloadsMore(a[1..], p);
      assert a[0].payload + (Payloads(a[1..]) + p.payload) == a[0].payload + Payloads(a[1..]) + p.payload;
    }
  }

  lemma {:induction false} UnitsOwn(ps: seq<Packet>, more: seq<Packet>, pid: nat, cc: nat)
    requires more != [] && Sequence(more, pid, cc, true)
    ensures Units(ps + more, pid) == Units(ps, pid) + [Payloads(more)]
    decreases |more|
  {
    var n := |more| - 1;
    var p := more[n];
    assert (ps + more)[..|ps| + n] == ps + more[..n] && more == more[..n] + [p];
    PayloadsMore(more[..n], p);
    if n == 0 {
      assert ps + more[..n] == ps && Payloads(more[..0]) == [] && [] + p.payload == p.payload;
    } else {
      UnitsOwn(ps, more[..n], pid, cc);
    }
  }

  /** The units the operations since the last slice change stand for. */
  function Sent(ops: seq<Op>, pid: nat): seq<seq<byte>> {
    if ops == [] then []
    else
      var op := ops[|ops| - 1];
      if op.Reset? then []
      else Sent(ops[..|ops| - 1], pid)
           + if op.es != [] && OpPid(op) == pid then [Data(op) + Trailer(Data(op), WithClock(op))] else []
  }

  lemma PsiUnits(m: Mux, pid: nat)
    requires CountInv(m) && (pid == PID_VIDEO || pid == PID_AUDIO)
    ensures Units(EnsurePsi(m).cur, pid) == Units(m.cur, pid)
  {
    hide PatSection, PmtSection, Counts, Whole;
    SectionSizes(m.h265);
    if !m.psi {
      var pat, pmt := PsiPacket(PID_PAT, m.ccPat, PatSection()), PsiPacket(PID_PMT, m.ccPmt, PmtSection(m.h265));
      UnitsOther(m.cur, [pat], PID_PAT, pid);
      UnitsOther(m.cur + [pat], [pmt], PID_PMT, pid);
    }
  }

  lemma ApplyUnits(m: Mux, op: Op, pid: nat)
    requires CountInv(m) && (pid == PID_VIDEO || pid == PID_AUDIO) && !op.Reset? && op.es != []
    ensures Units(Apply(m, op).cur, pid)
         == Units(m.cur, pid) + if OpPid(op) == pid then [Data(op) + Trailer(Data(op), WithClock(op))] else []
  {
    hide PatSection, PmtSection, PsiPacket, Counts, Whole, PesPackets, PesHeader, Trailer, EnsurePsi, Units;
    PsiCounts(m);
    PsiUnits(m, pid);
    var n := EnsurePsi(m);
    PesCounts(n, op);
    var ps := PesOf(n, op);
    var cc := if op.Video? then n.ccV else n.ccA;
    assert Apply(m, op).cur == n.cur + ps;
    if OpPid(op) == pid {
      UnitsOwn(n.cur, ps, pid, cc);
    } else {
      UnitsOther(n.cur, ps, OpPid(op), pid);
      assert Units(m.cur, pid) + [] == Units(m.cur, pid);
    }
  }

  /** Out of the current slice, a receiver takes exactly the pictures, and exactly the audio
      frames, written since the slice began, in order and untouched by each other. */
  lemma {:induction false} SliceArrives(h265: bool, ops: seq<Op>, pid: nat)
    requires pid == PID_VIDEO || pid == PID_AUDIO
    ensures Units(Run(h265, ops).cur, pid) == Sent(ops, pid)
    decreases |ops|
  {
    hide PesHeader, Trailer, PesPackets;
    if ops != [] {
      var before, op := ops[..|ops| - 1], ops[|ops| - 1];
      SliceArrives(h265, before, pid);
      if op.Reset? {
        assert Units([], pid) == [];
      } else if op.es != [] {
        RunCounts(h265, before);
        ApplyUnits(Run(h265, before), op, pid);
      } else {
        assert Sent(before, pid) + [] == Sent(before, pid);
      }
    }
  }

  /** The same from the bytes of the slice. */
  lemma SliceBytesArrive(h265: bool, ops: seq<Op>, pid: nat)
    requires pid == PID_VIDEO || pid == PID_AUDIO
    ensures var m := Run(h265, ops);
      && (forall i :: 0 <= i < |m.cur| ==> Whole(m.cur[i]))
      && |Stream(m.cur)| == TS_PKT * |m.cur| && Units(ParseStream(Stream(m.cur)), pid) == Sent(ops, pid)
  {
    RunCounts(h265, ops);
    StreamReadsBack(Run(h265, ops).cur);
    SliceArrives(h265, ops, pid);
  }

  /** A unit gives back the time modulo 2^33 and the data; the data of a key picture of fewer than
      162 bytes, and of no other, comes with fill behind it. */
  lemma UnitParses(op: Op)
    requires !op.Reset?
    ensures var r := ParsePes(Data(op) + Trailer(Data(op), WithClock(op)));
      && r.Pes? && r.sid == (if op.Video? then STREAM_VIDEO else STREAM_AUDIO) && r.pts == op.pts % PTS_END
      && r.es == op.es + Trailer(Data(op), WithClock(op))
      && (r.es == op.es <==> !(WithClock(op) && |op.es| < 162))
      && (op.Audio? ==> (r.length == 8 + |r.es| <==> |op.es| + 8 < 0x1_0000))
  {
    hide PesHeader, ParsePes;
    var sid := if op.Video? then STREAM_VIDEO else STREAM_AUDIO;
    var t := Trailer(Data(op), WithClock(op));
    assert Data(op) + t == PesHeader(sid, |op.es|, op.pts) + (op.es + t);
    PesReadsBack(sid, |op.es|, op.pts, op.es + t);
    if t == [] {
      assert op.es + t == op.es;
    } else {
      assert |op.es + t| > |op.es|;
    }
  }
}
