/** Register tables and the write plan shared by both copies of the NCS8801S driver.

    The header ncs8801s.h (sub-block addresses, the five register tables and the
    five *_REG_LEN macros) is not part of this model: its constants are gathered in
    a `Header` value that every operation takes as a parameter. */
module Regs {

  /** C's unsigned char / uchar. */
  type byte = bv8

  datatype Option<T> = None | Some(value: T)

  /** One entry of a register table (struct reg_data). */
  datatype RegData = RegData(reg: byte, val: byte)

  /** One register write as it goes on the bus: sub-block address, register, value. */
  datatype RegWrite = RegWrite(addr: byte, reg: byte, val: byte)

  /** The constants of ncs8801s.h. */
  datatype Header = Header(
    id1: byte, id2: byte, id3: byte,
    id1Regs1920: seq<RegData>, id2Regs1920: seq<RegData>, id3Regs1920: seq<RegData>,
    id1Regs1366: seq<RegData>, id2Regs1366: seq<RegData>,
    id1Len1920: nat, id2Len1920: nat, id3Len1920: nat,
    id1Len1366: nat, id2Len1366: nat)
  {
    /** The three sub-blocks answer on three different bus addresses. */
    predicate DistinctAddrs() {
      id1 != id2 && id1 != id3 && id2 != id3
    }

    /** Every LEN macro is the size of the table it names. */
    predicate LensAreSizes() {
      id1Len1920 == |id1Regs1920| && id2Len1920 == |id2Regs1920| && id3Len1920 == |id3Regs1920| &&
      id1Len1366 == |id1Regs1366| && id2Len1366 == |id2Regs1366|
    }
  }

  /** The test both init routines branch on. */
  predicate IsFullHd(w: int, h: int) {
    w == 1920 && h == 1080
  }

  /** The entry count write_list plays for sub-block `addr`: it looks at the address
      and at `screenW == 1920` only, never at the height or at the table passed. */
  function ListLen(hdr: Header, addr: byte, screenW: int): (n: nat) {
    if addr == hdr.id1 then
      (if screenW == 1920 then hdr.id1Len1920 else hdr.id1Len1366)
    else if addr == hdr.id2 then
      (if screenW == 1920 then hdr.id2Len1920 else hdr.id2Len1366)
    else
      hdr.id3Len1920
  }

  /** Two widths that agree on `== 1920` give every sub-block the same entry count. */
  lemma ListLenOnlyTestsWidth(hdr: Header, addr: byte, w1: int, w2: int)
    requires (w1 == 1920) == (w2 == 1920)
    ensures ListLen(hdr, addr, w1) == ListLen(hdr, addr, w2)
  {
  }

  /** The writes that playing the first `len` entries of `list` to `addr` issues, in table order. */
  function Segment(addr: byte, list: seq<RegData>, len: nat): (ws: seq<RegWrite>)
    requires len <= |list|
    ensures |ws| == len
  {
    if len == 0 then []
    else Segment(addr, list, len - 1) + [RegWrite(addr, list[len - 1].reg, list[len - 1].val)]
  }

  /** The i-th write of a segment carries the i-th table entry, to the segment's address. */
  lemma {:induction false} SegmentAt(addr: byte, list: seq<RegData>, len: nat)
    requires len <= |list|
    ensures forall i :: 0 <= i < len ==> Segment(addr, list, len)[i] == RegWrite(addr, list[i].reg, list[i].val)
  {
    if len > 0 {
      SegmentAt(addr, list, len - 1);
    }
  }

  /** Each table the branch for `w` x `h` passes to write_list holds at least the
      number of entries write_list will read from it. For 1920 x h with h != 1080
      the 1366 tables are passed but the 1920 lengths are used. */
  predicate TablesFit(hdr: Header, w: int, h: int) {
    if IsFullHd(w, h) then
      ListLen(hdr, hdr.id1, w) <= |hdr.id1Regs1920| &&
      ListLen(hdr, hdr.id2, w) <= |hdr.id2Regs1920| &&
      ListLen(hdr, hdr.id3, w) <= |hdr.id3Regs1920|
    else
      ListLen(hdr, hdr.id1, w) <= |hdr.id1Regs1366| &&
      ListLen(hdr, hdr.id2, w) <= |hdr.id2Regs1366|
  }

  /** The 0x0F override written to ID1 after the ID1 and ID2 tables, in both branches. */
  function Override0F(hdr: Header): RegWrite {
    RegWrite(hdr.id1, 0x0F, 0x00)
  }

  /** The 0x71 fix-up written to ID1 last, for 1920 x 1080 only. */
  function Fixup71(hdr: Header): RegWrite {
    RegWrite(hdr.id1, 0x71, 0x09)
  }

  /** The register writes the write phase of init issues, one entry per call of
      the driver's write routine, in program order. */
  function Plan(hdr: Header, w: int, h: int): (p: seq<RegWrite>)
    requires TablesFit(hdr, w, h)
  {
    if IsFullHd(w, h) then
      Segment(hdr.id1, hdr.id1Regs1920, ListLen(hdr, hdr.id1, w)) +
      Segment(hdr.id2, hdr.id2Regs1920, ListLen(hdr, hdr.id2, w)) +
      [Override0F(hdr)] +
      Segment(hdr.id3, hdr.id3Regs1920, ListLen(hdr, hdr.id3, w)) +
      [Fixup71(hdr)]
    else
      Segment(hdr.id1, hdr.id1Regs1366, ListLen(hdr, hdr.id1, w)) +
      Segment(hdr.id2, hdr.id2Regs1366, ListLen(hdr, hdr.id2, w)) +
      [Override0F(hdr)]
  }

  /** Where each part of `a + b + [c] + d + [e]` sits. */
  lemma CatIndex<T>(a: seq<T>, b: seq<T>, c: T, d: seq<T>, e: T)
    ensures var p := a + b + [c] + d + [e];
      |p| == |a| + |b| + |d| + 2 &&
      (forall i :: 0 <= i < |a| ==> p[i] == a[i]) &&
      (forall i :: |a| <= i < |a| + |b| ==> p[i] == b[i - |a|]) &&
      p[|a| + |b|] == c &&
      (forall i :: |a| + |b| < i < |a| + |b| + 1 + |d| ==> p[i] == d[i - |a| - |b| - 1]) &&
      p[|p| - 1] == e
  {
  }

  /** 1920 x 1080: the ID1 1920 table, then the ID2 1920 table, then ID1[0x0F] = 0,
      then the ID3 table, and ID1[0x71] = 9 last. */
  lemma {:induction false} FullHdPlanOrder(hdr: Header)
    requires TablesFit(hdr, 1920, 1080)
    ensures var p := Plan(hdr, 1920, 1080);
      var n1, n2, n3 := ListLen(hdr, hdr.id1, 1920), ListLen(hdr, hdr.id2, 1920), ListLen(hdr, hdr.id3, 1920);
      |p| == n1 + n2 + n3 + 2 &&
      (forall i :: 0 <= i < n1 ==> p[i] == RegWrite(hdr.id1, hdr.id1Regs1920[i].reg, hdr.id1Regs1920[i].val)) &&
      (forall i :: n1 <= i < n1 + n2 ==> p[i] == RegWrite(hdr.id2, hdr.id2Regs1920[i - n1].reg, hdr.id2Regs1920[i - n1].val)) &&
      p[n1 + n2] == RegWrite(hdr.id1, 0x0F, 0x00) &&
      (forall i :: n1 + n2 < i < n1 + n2 + 1 + n3 ==> p[i] == RegWrite(hdr.id3, hdr.id3Regs1920[i - n1 - n2 - 1].reg, hdr.id3Regs1920[i - n1 - n2 - 1].val)) &&
      p[|p| - 1] == RegWrite(hdr.id1, 0x71, 0x09)
  {
    var n1, n2, n3 := ListLen(hdr, hdr.id1, 1920), ListLen(hdr, hdr.id2, 1920), ListLen(hdr, hdr.id3, 1920);
    var s1 := Segment(hdr.id1, hdr.id1Regs1920, n1);
    var s2 := Segment(hdr.id2, hdr.id2Regs1920, n2);
    var s3 := Segment(hdr.id3, hdr.id3Regs1920, n3);
    CatIndex(s1, s2, Override0F(hdr), s3, Fixup71(hdr));
    SegmentAt(hdr.id1, hdr.id1Regs1920, n1);
    SegmentAt(hdr.id2, hdr.id2Regs1920, n2);
    SegmentAt(hdr.id3, hdr.id3Regs1920, n3);
  }

  /** 1920 x 1080 with distinct sub-block addresses: a write goes to ID3 exactly
      when it lies strictly between the 0x0F override and the 0x71 fix-up. */
  lemma FullHdId3Window(hdr: Header)
    requires hdr.DistinctAddrs() && TablesFit(hdr, 1920, 1080)
    ensures var p := Plan(hdr, 1920, 1080);
      forall i :: 0 <= i < |p| ==> (p[i].addr == hdr.id3 <==> hdr.id1Len1920 + hdr.id2Len1920 < i < |p| - 1)
  {
    FullHdPlanOrder(hdr);
    var p := Plan(hdr, 1920, 1080);
    var n1, n2 := ListLen(hdr, hdr.id1, 1920), ListLen(hdr, hdr.id2, 1920);
    forall i | 0 <= i < |p| ensures p[i].addr == hdr.id3 <==> n1 + n2 < i < |p| - 1 {
      if i < n1 {
        assert p[i].addr == hdr.id1;
      } else if i < n1 + n2 {
        assert p[i].addr == hdr.id2;
      } else if n1 + n2 < i < |p| - 1 {
        assert p[i].addr == hdr.id3;
      }
    }
  }

  /** Any other resolution: the ID1 1366 table, the ID2 1366 table, and ID1[0x0F] = 0
      last; with distinct addresses no write goes to ID3, and nothing follows the
      0x0F override. */
  lemma {:induction false} OtherPlanOrder(hdr: Header, w: int, h: int)
    requires !IsFullHd(w, h) && TablesFit(hdr, w, h)
    ensures var p := Plan(hdr, w, h);
      var n1, n2 := ListLen(hdr, hdr.id1, w), ListLen(hdr, hdr.id2, w);
      |p| == n1 + n2 + 1 &&
      (forall i :: 0 <= i < n1 ==> p[i] == RegWrite(hdr.id1, hdr.id1Regs1366[i].reg, hdr.id1Regs1366[i].val)) &&
      (forall i :: n1 <= i < n1 + n2 ==> p[i] == RegWrite(hdr.id2, hdr.id2Regs1366[i - n1].reg, hdr.id2Regs1366[i - n1].val)) &&
      p[|p| - 1] == RegWrite(hdr.id1, 0x0F, 0x00) &&
      (hdr.DistinctAddrs() ==> forall i :: 0 <= i < |p| ==> p[i].addr != hdr.id3)
  {
    var n1, n2 := ListLen(hdr, hdr.id1, w), ListLen(hdr, hdr.id2, w);
    var s1 := Segment(hdr.id1, hdr.id1Regs1366, n1);
    var s2 := Segment(hdr.id2, hdr.id2Regs1366, n2);
    SegmentAt(hdr.id1, hdr.id1Regs1366, n1);
    SegmentAt(hdr.id2, hdr.id2Regs1366, n2);
    var p := Plan(hdr, w, h);
    assert p == s1 + s2 + [Override0F(hdr)];
    forall i | 0 <= i < |p| ensures p[i].addr == hdr.id1 || p[i].addr == hdr.id2 {
      if i < n1 {
        assert p[i] == s1[i];
      } else if i < n1 + n2 {
        assert p[i] == s2[i - n1];
      }
    }
  }

  /** For a header whose LEN macros are the sizes of their tables, the fit
      condition holds at 1920 x 1080 and at every width other than 1920; at 1920 x h
      with h != 1080 it holds exactly when each 1366 table is at least as long as
      the 1920 table of the same sub-block. */
  lemma SizedHeaderFits(hdr: Header, w: int, h: int)
    requires hdr.LensAreSizes() && hdr.DistinctAddrs()
    ensures IsFullHd(w, h) || w != 1920 ==> TablesFit(hdr, w, h)
    ensures w == 1920 && h != 1080 ==>
      (TablesFit(hdr, w, h) <==> |hdr.id1Regs1920| <= |hdr.id1Regs1366| && |hdr.id2Regs1920| <= |hdr.id2Regs1366|)
  {
  }

  /** A sized header with a longer ID1 1920 table than ID1 1366 table: at 1920 x 1200
      init would play more entries of the ID1 1366 table than it has. */
  lemma MixedWidthOverrunsTable()
    ensures var hdr := Header(0x70, 0x72, 0x75, [RegData(0, 0), RegData(1, 1)], [], [], [RegData(0, 0)], [], 2, 0, 0, 1, 0);
      hdr.LensAreSizes() && hdr.DistinctAddrs() && !TablesFit(hdr, 1920, 1200) &&
      |hdr.id1Regs1366| < ListLen(hdr, hdr.id1, 1920)
  {
  }
}
