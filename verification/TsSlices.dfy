/** A slice as a receiver finds it, said of the pictures and audio frames written: the tables, every unit with
    its time and bytes, and the clock and the entry points at the key pictures. */
module TsSlices {
  import opened Bytes
  import opened Ts
  import opened TsRun

  /** The pictures, or the audio frames, written since the last change of slice; empty ones are not. */
  function Written(ops: seq<Op>, video: bool): seq<Op> {
    if ops == [] then []
    else
      var op := ops[|ops| - 1];
      if op.Reset? then []
      else Written(ops[..|ops| - 1], video) + if op.es != [] && op.Video? == video then [op] else []
  }

  lemma {:induction false} WrittenKind(ops: seq<Op>, video: bool)
    ensures forall i :: 0 <= i < |Written(ops, video)| ==>
      var op := Written(ops, video)[i]; !op.Reset? && op.es != [] && op.Video? == video
    decreases |ops|
  {
    if ops != [] {
      WrittenKind(ops[..|ops| - 1], video);
    }
  }

  // ---- what a receiver reads ----

  /** The packets that start a unit. */
  function Starters(ps: seq<Packet>, pid: nat): seq<Packet> {
    if ps == [] then []
    else Starters(ps[..|ps| - 1], pid) + if ps[|ps| - 1].pid == pid && ps[|ps| - 1].start then [ps[|ps| - 1]] else []
  }

  /** Sections 2.4.3.4 and 2.4.3.5: whether decoding can begin here. */
  predicate Entry(a: Adaptation) { a.Field? && a.body != [] && a.body[0] / 64 % 2 == 1 }

  datatype Clock = NoClock | ClockAt(base: nat)

  function ClockOf(a: Adaptation): Clock {
    if a.Field? && |a.body| >= 7 && a.body[0] / 16 % 2 == 1 then
      ClockAt(a.body[1] as int * 0x200_0000 + a.body[2] as int * 0x2_0000 + a.body[3] as int * 0x200 + a.body[4] as int * 2 + a.body[5] as int / 0x80)
    else NoClock
  }

  /** The unit is the picture or audio frame; a key picture of fewer than 162 bytes has fill behind it. */
  predicate Brings(unit: seq<byte>, op: Op)
    requires !op.Reset?
  {
    var r := ParsePes(unit);
    && r.Pes? && r.sid == (if op.Video? then 0xE0 else 0xC0) && r.pts == op.pts % 0x2_0000_0000
    && |r.es| == |op.es| + (if op.Video? && op.key && |op.es| < 162 then 162 - |op.es| else 0)
    && r.es[..|op.es|] == op.es && (forall i :: |op.es| <= i < |r.es| ==> r.es[i] == 0xFF)
    && (op.Audio? && |op.es| + 8 < 0x1_0000 ==> r.length == |op.es| + 8) && (op.Video? ==> r.length == 0)
  }

  /** A key picture, and nothing else, is a place to begin, and has its time for a clock reference. */
  predicate Marks(p: Packet, op: Op) {
    var key := op.Video? && op.key;
    (Entry(p.field) <==> key) && ClockOf(p.field) == if key then ClockAt(op.pts % 0x2_0000_0000) else NoClock
  }

  /** The first packets: program 1, its map, and in the map the streams. */
  predicate Announces(h265: bool, ps: seq<Packet>) {
    && |ps| > 2 && ps[0].start && ps[0].pid == 0 && ps[1].start && ps[1].pid == 0x1000
    && var pat, pmt := ParseSection(ps[0].payload), ParseSection(ps[1].payload);
    && pat.Section? && pat.table == 0 && Programs(pat.body) == [(1, 0x1000)]
    && pmt.Section? && pmt.table == 2 && |pmt.body| >= 4
    && pmt.body[0] as int % 32 * 256 + pmt.body[1] as int == 0x100
    && Streams(pmt.body[4..]) == [(if h265 then 0x24 else 0x1B, 0x100), (0x0F, 0x101)]
  }

  // ---- units ----

  lemma DataBrings(op: Op)
    requires !op.Reset?
    ensures Brings(Data(op) + Trailer(Data(op), WithClock(op)), op)
  {
    hide PesHeader, ParsePes;
    UnitParses(op);
    var t := Trailer(Data(op), WithClock(op));
    assert Data(op) + t == PesHeader(if op.Video? then 0xE0 else 0xC0, |op.es|, op.pts) + (op.es + t);
    PesReadsBack(if op.Video? then 0xE0 else 0xC0, |op.es|, op.pts, op.es + t);
  }

  lemma {:induction false} SentBrings(ops: seq<Op>, video: bool)
    ensures var sent, ws := Sent(ops, if video then 0x100 else 0x101), Written(ops, video);
      |sent| == |ws| && forall i :: 0 <= i < |ws| ==> !ws[i].Reset? && Brings(sent[i], ws[i])
    decreases |ops|
  {
    hide Brings, Data, Trailer;
    if ops != [] {
      var op := ops[|ops| - 1];
      SentBrings(ops[..|ops| - 1], video);
      if !op.Reset? {
        DataBrings(op);
      }
    }
  }

  // ---- first packets of units ----

  lemma {:induction false} StartersMore(a: seq<Packet>, b: seq<Packet>, pid: nat)
    ensures Starters(a + b, pid) == Starters(a, pid) + Starters(b, pid)
    decreases |b|
  {
    if b == [] {
      assert a + b == a;
    } else {
      assert (a + b)[..|a + b| - 1] == a + b[..|b| - 1];
      StartersMore(a, b[..|b| - 1], pid);
    }
  }

  lemma {:induction false} StartersOf(ps: seq<Packet>, own: nat, cc: nat, pid: nat)
    requires ps != [] && Sequence(ps, own, cc, true)
    ensures Starters(ps, pid) == if own == pid then [ps[0]] else []
    decreases |ps|
  {
    hide Whole;
    if |ps| == 1 {
      assert ps[..0] == [] && [] + [ps[0]] == [ps[0]];
    } else {
      StartersOf(ps[..|ps| - 1], own, cc, pid);
    }
  }

  lemma FirstMarks(m: Mux, op: Op)
    requires !op.Reset? && op.es != []
    ensures PesOf(m, op) != [] && Marks(PesOf(m, op)[0], op)
  {
    hide PcrField, ClockOf, PesHeader;
    var d := Data(op);
    assert |d| > 14;
    if WithClock(op) {
      ClockReads(op.pts);
    } else {
      var p := DataPacket(OpPid(op), if op.Video? then m.ccV else m.ccA, true, d, 0);
      NoClockIn(p.field, |d|);
    }
  }

  lemma ClockReads(pts: nat)
    ensures Entry(Field(PcrField(pts))) && ClockOf(Field(PcrField(pts))) == ClockAt(pts % 0x2_0000_0000)
  {
    PcrReadsBack(pts);
  }

  lemma NoClockIn(a: Adaptation, n: nat)
    requires a == if n < BODY then Stuffing(BODY - n) else NoField
    ensures !Entry(a) && ClockOf(a) == NoClock
  {
  }

  lemma ApplyStarters(m: Mux, op: Op, pid: nat)
    requires CountInv(m) && (pid == 0x100 || pid == 0x101) && !op.Reset? && op.es != []
    ensures PesOf(EnsurePsi(m), op) != []
    ensures Starters(Apply(m, op).cur, pid) == Starters(m.cur, pid) + if OpPid(op) == pid then [PesOf(EnsurePsi(m), op)[0]] else []
  {
    hide PatSection, PmtSection, PsiPacket, Counts, Whole, PesOf, EnsurePsi, Starters;
    PsiCounts(m);
    PsiStarters(m, pid);
    var n := EnsurePsi(m);
    PesCounts(n, op);
    var ps := PesOf(n, op);
    assert Apply(m, op).cur == n.cur + ps;
    StartersMore(n.cur, ps, pid);
    StartersOf(ps, OpPid(op), if op.Video? then n.ccV else n.ccA, pid);
  }

  lemma PsiStarters(m: Mux, pid: nat)
    requires CountInv(m) && (pid == 0x100 || pid == 0x101)
    ensures Starters(EnsurePsi(m).cur, pid) == Starters(m.cur, pid)
  {
    hide PatSection, PmtSection, PsiPacket, Counts, Whole, Starters;
    SectionSizes(m.h265);
    if !m.psi {
      var pat, pmt := PsiPacket(PID_PAT, m.ccPat, PatSection()), PsiPacket(PID_PMT, m.ccPmt, PmtSection(m.h265));
      NextBounded(m, PID_PAT); NextBounded(m, PID_PMT);
      PsiSequence(PID_PAT, m.ccPat, PatSection());
      PsiSequence(PID_PMT, m.ccPmt, PmtSection(m.h265));
      StartersMore(m.cur, [pat], pid);
      StartersMore(m.cur + [pat], [pmt], pid);
      StartersOf([pat], PID_PAT, m.ccPat, pid);
      StartersOf([pmt], PID_PMT, m.ccPmt, pid);
    }
  }

  lemma NoStarters(pid: nat)
    ensures Starters([], pid) == []
  {
  }

  lemma IdleApply(m: Mux, op: Op, pid: nat)
    ensures op.Reset? ==> Starters(Apply(m, op).cur, pid) == []
    ensures !op.Reset? && op.es == [] ==> Apply(m, op) == m
  {
    hide EnsurePsi, PesOf;
  }

  lemma {:induction false} StartersMark(h265: bool, ops: seq<Op>, video: bool)
    ensures var ss, ws := Starters(Run(h265, ops).cur, if video then 0x100 else 0x101), Written(ops, video);
      |ss| == |ws| && forall i :: 0 <= i < |ws| ==> Marks(ss[i], ws[i])
    decreases |ops|
  {
    hide Marks, PesOf, EnsurePsi, Apply, Starters;
    if ops == [] {
      NoStarters(if video then 0x100 else 0x101);
    } else {
      var before, op := ops[..|ops| - 1], ops[|ops| - 1];
      StartersMark(h265, before, video);
      IdleApply(Run(h265, before), op, if video then 0x100 else 0x101);
      if !op.Reset? && op.es != [] {
        RunCounts(h265, before);
        ApplyStarters(Run(h265, before), op, if video then 0x100 else 0x101);
        FirstMarks(EnsurePsi(Run(h265, before)), op);
      }
    }
  }

  // ---- the tables ----

  lemma TablesAnnounce(m: Mux)
    requires CountInv(m) && m.cur != []
    ensures Announces(m.h265, m.cur)
  {
    hide Sealed, ParseSection, Programs, Streams, Counts, Whole;
    SectionSizes(m.h265);
    PatReadsBack();
    PmtReadsBack(m.h265);
  }

  lemma {:induction false} RunKind(h265: bool, ops: seq<Op>)
    ensures Run(h265, ops).h265 == h265
    decreases |ops|
  {
    hide Apply;
    if ops != [] {
      RunKind(h265, ops[..|ops| - 1]);
      ApplyKind(Run(h265, ops[..|ops| - 1]), ops[|ops| - 1]);
    }
  }

  lemma ApplyKind(m: Mux, op: Op)
    ensures Apply(m, op).h265 == m.h265
  {
    hide PesOf, PatSection, PmtSection, PsiPacket;
  }

  lemma {:induction false} EmptySlice(h265: bool, ops: seq<Op>)
    ensures Run(h265, ops).cur == [] <==> Written(ops, true) == [] && Written(ops, false) == []
    decreases |ops|
  {
    hide EnsurePsi, PesOf;
    if ops != [] {
      var before, op := ops[..|ops| - 1], ops[|ops| - 1];
      EmptySlice(h265, before);
      if !op.Reset? && op.es != [] {
        RunCounts(h265, before);
        FirstMarks(EnsurePsi(Run(h265, before)), op);
      }
    }
  }

  /** From the bytes of a slice alone a receiver finds the streams, and in them exactly the pictures and audio frames
      written since the last change of slice, in order, with their times and bytes; key pictures, and no others, are
      marked as places to begin and carry the clock. */
  lemma SliceTells(h265: bool, ops: seq<Op>)
    ensures forall i :: 0 <= i < |Run(h265, ops).cur| ==> Whole(Run(h265, ops).cur[i])
    ensures var ps, vs, fs := ParseStream(Stream(Run(h265, ops).cur)), Written(ops, true), Written(ops, false);
      && |Units(ps, 0x100)| == |Starters(ps, 0x100)| == |vs| && |Units(ps, 0x101)| == |Starters(ps, 0x101)| == |fs|
      && (forall i :: 0 <= i < |vs| ==> !vs[i].Reset? && Brings(Units(ps, 0x100)[i], vs[i]) && Marks(Starters(ps, 0x100)[i], vs[i]))
      && (forall i :: 0 <= i < |fs| ==> !fs[i].Reset? && Brings(Units(ps, 0x101)[i], fs[i]) && Marks(Starters(ps, 0x101)[i], fs[i]))
      && if vs == [] && fs == [] then ps == [] else Announces(h265, ps)
  {
    hide Brings, Marks, Announces, Units, Starters, CountInv;
    var m := Run(h265, ops);
    SliceBytesArrive(h265, ops, 0x100);
    StreamReadsBack(m.cur);
    SliceArrives(h265, ops, 0x100);
    SliceArrives(h265, ops, 0x101);
    SentBrings(ops, true);
    SentBrings(ops, false);
    StartersMark(h265, ops, true);
    StartersMark(h265, ops, false);
    EmptySlice(h265, ops);
    RunKind(h265, ops);
    RunCounts(h265, ops);
    if m.cur != [] {
      TablesAnnounce(m);
    }
  }
}
