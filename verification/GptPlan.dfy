/**
 When the last partition is grown, and what is changed then: every octet of the table and the headers
 that is not named here stays as it was. Offsets are those of the packed structures of the UEFI
 Specification (section 5.3), each field right behind the one before.
 */
module GptPlan {
  import opened Octets
  import opened Gpt

  // ---------- The packed structures ----------

  function Sum(widths: seq<nat>): nat
  {
    if widths == [] then 0 else widths[0] + Sum(widths[1..])
  }

  /** Signature, revision, size, checksum, reserved, own and other block, usable blocks, GUID, array. */
  const HEADER_WIDTHS: seq<nat> := [8, 4, 4, 4, 4, 8, 8, 8, 8, 16, 8, 4, 4, 4]

  function Place(f: Field): nat
  {
    match f
    case HeaderSize => 2
    case HeaderCrc => 3
    case MyLba => 5
    case AlternateLba => 6
    case LastUsable => 8
    case EntryLba => 10
    case EntryCount => 11
    case EntrySize => 12
    case ArrayCrc => 13
  }

  lemma SumNext(widths: seq<nat>, k: nat)
    requires k < |widths|
    ensures Sum(widths[..0]) == 0 && Sum(widths[..k + 1]) == Sum(widths[..k]) + widths[k]
    decreases k
  {
    if k == 0 {
      assert widths[..1][1..] == [] && widths[..0] == [];
    } else {
      SumNext(widths[1..], k - 1);
      assert widths[..k + 1][1..] == widths[1..][..k] && widths[..k][1..] == widths[1..][..k - 1];
    }
  }

  /** Each field is where the widths in front of it end, and all of them are the 92 octets. */
  lemma HeaderPacked(f: Field)
    ensures At(f) == Sum(HEADER_WIDTHS[..Place(f)]) && Width(f) == HEADER_WIDTHS[Place(f)]
    ensures Sum(HEADER_WIDTHS) == HEADER_BYTES
  {
    hide Sum;
    Places();
    SumNext(HEADER_WIDTHS, 13);
    assert HEADER_WIDTHS[..14] == HEADER_WIDTHS;
  }

  lemma Places()
    ensures Sum(HEADER_WIDTHS[..2]) == 12 && Sum(HEADER_WIDTHS[..3]) == 16 && Sum(HEADER_WIDTHS[..5]) == 24
    ensures Sum(HEADER_WIDTHS[..6]) == 32 && Sum(HEADER_WIDTHS[..8]) == 48 && Sum(HEADER_WIDTHS[..10]) == 72
    ensures Sum(HEADER_WIDTHS[..11]) == 80 && Sum(HEADER_WIDTHS[..12]) == 84 && Sum(HEADER_WIDTHS[..13]) == 88
  {
    hide Sum;
    SumNext(HEADER_WIDTHS, 0);
    SumNext(HEADER_WIDTHS, 1);
    SumNext(HEADER_WIDTHS, 2);
    SumNext(HEADER_WIDTHS, 3);
    SumNext(HEADER_WIDTHS, 4);
    SumNext(HEADER_WIDTHS, 5);
    SumNext(HEADER_WIDTHS, 6);
    SumNext(HEADER_WIDTHS, 7);
    SumNext(HEADER_WIDTHS, 8);
    SumNext(HEADER_WIDTHS, 9);
    SumNext(HEADER_WIDTHS, 10);
    SumNext(HEADER_WIDTHS, 11);
    SumNext(HEADER_WIDTHS, 12);
  }

  /** A little-endian number: each octet counts 256 times the one before. */
  lemma {:induction false} NumIs(bs: seq<octet>, b: octet)
    ensures Num([]) == 0 && Num(bs + [b]) == Num(bs) + b * Pow256(|bs|)
  {
    if bs == [] {
      assert bs + [b] == [b] && [b][1..] == [];
    } else {
      NumIs(bs[1..], b);
      assert (bs + [b])[1..] == bs[1..] + [b];
      Distribute(bs[0], Num(bs[1..]), b, Pow256(|bs| - 1));
    }
  }

  lemma Distribute(first: int, rest: int, b: int, p: int)
    ensures first + 256 * (rest + b * p) == first + 256 * rest + b * (256 * p)
  {
  }

  lemma PowerIs(n: nat)
    ensures Pow256(0) == 1 && Pow256(n + 1) == 256 * Pow256(n)
  {
  }

  /** An entry: type and own GUID, first and last block, attributes, name. */
  lemma EntryPacked(a: seq<octet>, size: nat, i: nat, kind: seq<octet>, own: seq<octet>, first: seq<octet>,
                    last: seq<octet>, rest: seq<octet>, before: seq<octet>)
    requires |kind| == |own| == 16 && |first| == |last| == 8 && |rest| >= 80 && |before| == i * size
    requires InArray(a, size, i) && a == before + (kind + own + first + last + rest)
    ensures Used(a, size, i) <==> exists k :: 0 <= k < 16 && kind[k] != 0
    ensures First(a, size, i) == Num(first) && Last(a, size, i) == Num(last)
  {
    hide Num;
    hide Slice;
    EntryRoom(a, size, i);
    EntrySlices(before, kind, own, first, last, rest);
    assert kind == seq(16, _ => 0) <==> forall k | 0 <= k < 16 :: kind[k] == 0;
  }

  lemma EntrySlices(before: seq<octet>, kind: seq<octet>, own: seq<octet>, first: seq<octet>, last: seq<octet>,
                    rest: seq<octet>)
    requires |kind| == |own| == 16 && |first| == |last| == 8
    ensures var a, off := before + (kind + own + first + last + rest), |before|;
      Slice(a, off, 16) == kind && Slice(a, off + 32, 8) == first && Slice(a, off + 40, 8) == last
  {
  }

  // ---------- When there is a plan ----------

  /** The partition is grown exactly if all of the code's conditions hold, and then to the last usable block. */
  lemma GrowsExactlyIf(d: seq<octet>, index: nat, m: Memory)
    requires Covered(d, m) && |d| < TWO64
    ensures PlanFor(d, index, m).Grow? <==>
      && |d| >= 1048576
      && var h: Header := d[512..604];
      && h[..8] == [0x45, 0x46, 0x49, 0x20, 0x50, 0x41, 0x52, 0x54]
      && var count, size, off := Get(h, EntryCount), Get(h, EntrySize), Get(h, EntryLba) * 512 % TWO64;
      && index < count && size >= 128 && off + count * size <= |d|
      && var a := d[off..off + count * size];
      && (forall i: nat | i < count :: InArray(a, size, i))
      && Used(a, size, index)
      && (forall i: nat | i < count && i != index :: Last(a, size, i) <= Last(a, size, index))
      && Last(a, size, index) + 4096 <= |d| / 512 - 34
  {
    hide Get;
    hide Used;
    hide Last;
    hide SetLast;
    hide PrimaryFor;
    hide BackupFor;
    hide InArray;
    if Readable(d, index) {
      var a := PrimaryArray(d, index);
      assert Slice(d, SECTOR, HEADER_BYTES) == d[512..604];
    } else if |d| >= 1048576 {
      assert Slice(d, SECTOR, HEADER_BYTES) == d[512..604];
    }
  }

  // ---------- What it changes ----------

  /** Of the table only the eight octets of the last block of that entry. */
  lemma TableOctets(a: seq<octet>, size: nat, index: nat, last: nat, k: nat)
    requires InArray(a, size, index) && k < |a|
    ensures var at := index * size + 40;
      && at + 8 <= |a|
      && (!(at <= k < at + 8) ==> SetLast(a, size, index, last)[k] == a[k])
      && SetLast(a, size, index, last)[at..at + 8] == Le(last, 8)
  {
    hide Le;
    EntryRoom(a, size, index);
  }

  lemma SetOctets(h: Header, f: Field, v: nat, k: nat)
    requires k < HEADER_BYTES && !(At(f) <= k < At(f) + Width(f))
    ensures Set(h, f, v)[k] == h[k]
  {
    hide Le;
  }

  /** Of the primary header: the checksums, the other header's block and the last usable block. */
  lemma PrimaryOctets(h: Header, table: seq<octet>, sectors: nat, behind: seq<octet>, k: nat)
    requires Get(h, HeaderSize) <= HEADER_BYTES + |behind| && 34 <= sectors < TWO64 && k < HEADER_BYTES
    requires !(16 <= k < 20) && !(32 <= k < 40) && !(48 <= k < 56) && !(88 <= k < 92)
    ensures PrimaryFor(h, table, sectors, behind)[k] == h[k]
  {
    hide Get;
    hide Set;
    hide Checksum;
    PrimaryFields(h, sectors, Checksum(table));
    var r1 := Set(h, LastUsable, sectors - 34);
    var r2 := Set(r1, AlternateLba, sectors - 1);
    var r3 := Set(r2, ArrayCrc, Checksum(table));
    SetOctets(h, LastUsable, sectors - 34, k);
    SetOctets(r1, AlternateLba, sectors - 1, k);
    SetOctets(r2, ArrayCrc, Checksum(table), k);
    var r4 := Set(r3, HeaderCrc, 0);
    SetOctets(r3, HeaderCrc, 0, k);
    SetOctets(r4, HeaderCrc, Checksum((r4 + behind)[..Get(r3, HeaderSize)]), k);
  }

  /** Of its copy at the end: checksum, both blocks and the place of the array. */
  lemma BackupOctets(p: Header, sectors: nat, behind: seq<octet>, k: nat)
    requires Get(p, HeaderSize) <= HEADER_BYTES + |behind| && 34 <= sectors < TWO64 && k < HEADER_BYTES
    requires !(16 <= k < 20) && !(24 <= k < 40) && !(72 <= k < 80)
    ensures BackupFor(p, sectors, behind)[k] == p[k]
  {
    hide Get;
    hide Set;
    hide Checksum;
    BackupFields(p, sectors);
    var r1 := Set(p, MyLba, sectors - 1);
    var r2 := Set(r1, AlternateLba, 1);
    var r3 := Set(r2, EntryLba, sectors - 33);
    SetOctets(p, MyLba, sectors - 1, k);
    SetOctets(r1, AlternateLba, 1, k);
    SetOctets(r2, EntryLba, sectors - 33, k);
    var r4 := Set(r3, HeaderCrc, 0);
    SetOctets(r3, HeaderCrc, 0, k);
    SetOctets(r4, HeaderCrc, Checksum((r4 + behind)[..Get(r3, HeaderSize)]), k);
  }

  // ---------- What the device takes ----------

  /** As much as is asked for, as there is room for, and as the device takes. */
  lemma AcceptedIs(d: seq<octet>, off: nat, data: seq<octet>, limit: nat)
    ensures var n := Accepted(d, off, data, limit);
      && n <= |data| && n <= limit && (n > 0 ==> off + n <= |d|)
      && (n == |data| || n == limit || (off < |d| && off + n == |d|) || (off >= |d| && n == 0))
      && forall k | 0 <= k < |d| ::
        Written(d, off, data, limit)[k] == if off <= k < off + n then data[k - off] else d[k]
  {
  }

  /** Without a complete primary pair the backup is not touched. */
  lemma IncompleteStops(d: seq<octet>, plan: Plan, limits: seq<nat>)
    requires plan.Grow? && Sectors(d) >= 34 && |limits| == 4
    ensures var d1 := Written(d, plan.tableOff, plan.table, limits[0]);
      Accepted(d, plan.tableOff, plan.table, limits[0]) < |plan.table|
      || Accepted(d1, 512, plan.primary, limits[1]) < 92 ==>
        Performed(d, plan, limits) == Written(d1, 512, plan.primary, limits[1])
  {
    hide Written;
    hide Accepted;
  }
}
