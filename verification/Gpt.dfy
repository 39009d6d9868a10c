/**
 Growing the last GPT partition at boot (section 5.3 of the UEFI Specification): an edit of the
 partition array, two recomputed checksums in each of two headers, and four writes in a fixed order.
 All structures are octets of the disk at their offsets, little-endian.
 */
module Gpt {
  import opened Octets
  import Crc32

  const SECTOR: nat := 512
  const HEADER_BYTES: nat := 92
  const ENTRY_BYTES: nat := 128
  const MIN_GROWTH: nat := 4096

  // ---------- Little-endian fields ----------

  function Num(bs: seq<octet>): nat
  {
    if bs == [] then 0 else bs[0] + 256 * Num(bs[1..])
  }

  function Le(v: nat, n: nat): (bs: seq<octet>)
    ensures |bs| == n
  {
    if n == 0 then [] else [v % 256] + Le(v / 256, n - 1)
  }

  function Pow256(n: nat): nat
  {
    if n == 0 then 1 else 256 * Pow256(n - 1)
  }

  /** Storing a number in n octets and loading it again reduces it modulo 256^n. */
  lemma {:induction false} NumLe(v: nat, n: nat)
    requires v < Pow256(n)
    ensures Num(Le(v, n)) == v
  {
    if n > 0 {
      NumLe(v / 256, n - 1);
      assert Le(v, n)[1..] == Le(v / 256, n - 1);
    }
  }

  function Slice(d: seq<octet>, off: nat, n: nat): (r: seq<octet>)
    requires off + n <= |d|
    ensures |r| == n
  {
    d[off..off + n]
  }

  function Patch(d: seq<octet>, off: nat, data: seq<octet>): (r: seq<octet>)
    requires off + |data| <= |d|
    ensures |r| == |d|
  {
    d[..off] + data + d[off + |data|..]
  }

  function Load(d: seq<octet>, off: nat, n: nat): nat
    requires off + n <= |d|
  {
    Num(Slice(d, off, n))
  }

  function Store(d: seq<octet>, off: nat, n: nat, v: nat): (r: seq<octet>)
    requires off + n <= |d|
    ensures |r| == |d|
  {
    Patch(d, off, Le(v, n))
  }

  lemma PatchSlice(d: seq<octet>, off: nat, data: seq<octet>, at: nat, n: nat)
    requires off + |data| <= |d| && at + n <= |d|
    ensures at == off && n == |data| ==> Slice(Patch(d, off, data), at, n) == data
    ensures at + n <= off || off + |data| <= at ==> Slice(Patch(d, off, data), at, n) == Slice(d, at, n)
  {
    var r := Patch(d, off, data);
    assert forall i | 0 <= i < |d| :: r[i] == if off <= i < off + |data| then data[i - off] else d[i];
  }

  lemma StoreLoad(d: seq<octet>, off: nat, n: nat, v: nat, at: nat, m: nat)
    requires off + n <= |d| && at + m <= |d| && v < Pow256(n)
    ensures at == off && m == n ==> Load(Store(d, off, n, v), at, m) == v
    ensures at + m <= off || off + n <= at ==> Load(Store(d, off, n, v), at, m) == Load(d, at, m)
  {
    PatchSlice(d, off, Le(v, n), at, m);
    NumLe(v, n);
  }

  // ---------- Headers and entries ----------

  /** Offset and width of each header field that the code uses. */
  datatype Field =
    HeaderSize | HeaderCrc | MyLba | AlternateLba | LastUsable | EntryLba | EntryCount | EntrySize | ArrayCrc

  function At(f: Field): nat
  {
    match f
    case HeaderSize => 12
    case HeaderCrc => 16
    case MyLba => 24
    case AlternateLba => 32
    case LastUsable => 48
    case EntryLba => 72
    case EntryCount => 80
    case EntrySize => 84
    case ArrayCrc => 88
  }

  function Width(f: Field): (w: nat)
    ensures w in {4, 8}
  {
    match f
    case HeaderSize | HeaderCrc | EntryCount | EntrySize | ArrayCrc => 4
    case MyLba | AlternateLba | LastUsable | EntryLba => 8
  }

  type Header = h: seq<octet> | |h| == HEADER_BYTES witness seq(HEADER_BYTES, _ => 0)

  function Get(h: Header, f: Field): nat
  {
    Load(h, At(f), Width(f))
  }

  function Set(h: Header, f: Field, v: nat): Header
  {
    Store(h, At(f), Width(f), v)
  }

  lemma GetSet(h: Header, f: Field, v: nat, g: Field)
    requires v < Pow256(Width(f))
    ensures Get(Set(h, f, v), g) == if g == f then v else Get(h, g)
  {
    hide Store;
    hide Load;
    StoreLoad(h, At(f), Width(f), v, At(g), Width(g));
  }

  const SIGNATURE: seq<octet> := [0x45, 0x46, 0x49, 0x20, 0x50, 0x41, 0x52, 0x54]

  predicate Signed(h: Header)
  {
    h[..8] == SIGNATURE
  }

  lemma SignedSet(h: Header, f: Field, v: nat)
    ensures Signed(Set(h, f, v)) == Signed(h)
  {
    PatchSlice(h, At(f), Le(v, Width(f)), 0, 8);
  }

  function Checksum(data: seq<octet>): (r: nat)
    ensures r < Pow256(4)
  {
    assert Pow256(4) == 0x1_0000_0000 by {
      assert Pow256(2) == 65536;
    }
    Crc32.Crc(ToBytes(data)) as nat
  }

  /** What the memory behind the two header structures holds. */
  datatype Memory = Memory(primary: seq<octet>, backup: seq<octet>)

  /**
   The header's own checksum covers HeaderSize octets with the checksum field zero. The size comes from
   the disk; above the structure's own, the octets behind it are read.
   */
  function Seal(h: Header, behind: seq<octet>): Header
    requires Get(h, HeaderSize) <= HEADER_BYTES + |behind|
  {
    var zeroed := Set(h, HeaderCrc, 0);
    Set(zeroed, HeaderCrc, Checksum((zeroed + behind)[..Get(h, HeaderSize)]))
  }

  /** The stored checksum is the one over the header and these octets behind it. */
  predicate SummedOver(h: Header, behind: seq<octet>)
    requires Get(h, HeaderSize) <= HEADER_BYTES + |behind|
  {
    Get(h, HeaderCrc) == Checksum((Set(h, HeaderCrc, 0) + behind)[..Get(h, HeaderSize)])
  }

  function ArrayBytes(h: Header): nat
  {
    Get(h, EntryCount) * Get(h, EntrySize)
  }

  predicate InArray(a: seq<octet>, size: nat, i: nat)
  {
    size >= ENTRY_BYTES && (i + 1) * size <= |a|
  }

  lemma EntryRoom(a: seq<octet>, size: nat, i: nat)
    requires InArray(a, size, i)
    ensures i * size + ENTRY_BYTES <= |a|
  {
    assert (i + 1) * size == i * size + size;
  }

  function Used(a: seq<octet>, size: nat, i: nat): bool
    requires InArray(a, size, i)
  {
    EntryRoom(a, size, i);
    Slice(a, i * size, 16) != seq(16, _ => 0)
  }

  function First(a: seq<octet>, size: nat, i: nat): nat
    requires InArray(a, size, i)
  {
    EntryRoom(a, size, i);
    Load(a, i * size + 32, 8)
  }

  function Last(a: seq<octet>, size: nat, i: nat): nat
    requires InArray(a, size, i)
  {
    EntryRoom(a, size, i);
    Load(a, i * size + 40, 8)
  }

  function SetLast(a: seq<octet>, size: nat, i: nat, v: nat): (r: seq<octet>)
    requires InArray(a, size, i)
    ensures |r| == |a|
  {
    EntryRoom(a, size, i);
    Store(a, i * size + 40, 8, v)
  }

  // ---------- What the code plans to write ----------

  const MIN_DISK: nat := 1048576
  const TWO64: nat := 0x1_0000_0000_0000_0000

  function Sectors(d: seq<octet>): nat
  {
    |d| / SECTOR
  }

  function PrimaryHeader(d: seq<octet>): Header
    requires |d| >= MIN_DISK
  {
    Slice(d, SECTOR, HEADER_BYTES)
  }

  function ArrayOffset(h: Header): nat
  {
    Get(h, EntryLba) * SECTOR % TWO64
  }

  /** The array can be read, and has an entry with that index. */
  predicate Readable(d: seq<octet>, index: nat)
  {
    |d| >= MIN_DISK &&
    var h := PrimaryHeader(d);
    && Signed(h)
    && index < Get(h, EntryCount) && Get(h, EntrySize) >= ENTRY_BYTES
    && ArrayOffset(h) + ArrayBytes(h) <= |d|
  }

  function PrimaryArray(d: seq<octet>, index: nat): (a: seq<octet>)
    requires Readable(d, index)
    ensures var h := PrimaryHeader(d);
      |a| == ArrayBytes(h) && forall i: nat | i < Get(h, EntryCount) :: InArray(a, Get(h, EntrySize), i)
  {
    var h := PrimaryHeader(d);
    var a := Slice(d, ArrayOffset(h), ArrayBytes(h));
    AllInArray(a, Get(h, EntrySize), Get(h, EntryCount));
    a
  }

  lemma AllInArray(a: seq<octet>, size: nat, count: nat)
    requires |a| == count * size && size >= ENTRY_BYTES
    ensures forall i: nat | i < count :: InArray(a, size, i)
  {
    forall i: nat | i < count ensures InArray(a, size, i) {
      assert (i + 1) * size <= count * size;
    }
  }

  /** Some other entry, used or not, ends beyond this one. */
  predicate OtherBeyond(a: seq<octet>, size: nat, count: nat, index: nat)
    requires index < count && forall i: nat | i < count :: InArray(a, size, i)
  {
    exists i: nat | i < count && i != index :: Last(a, size, i) > Last(a, size, index)
  }

  datatype Plan = Nothing | Grow(table: seq<octet>, tableOff: nat, primary: Header, backup: Header)

  function NewLast(d: seq<octet>): int
  {
    Sectors(d) - 34
  }

  /** The header is no longer than its structure, so that no other memory is read. */
  predicate SaneHeader(d: seq<octet>)
  {
    |d| >= MIN_DISK ==> Get(PrimaryHeader(d), HeaderSize) <= HEADER_BYTES
  }

  /** The memory that the checksums read is there. */
  predicate Covered(d: seq<octet>, m: Memory)
  {
    |d| >= MIN_DISK ==>
      Get(PrimaryHeader(d), HeaderSize) <= HEADER_BYTES + if |m.primary| < |m.backup| then |m.primary| else |m.backup|
  }

  function PrimaryFor(h: Header, table: seq<octet>, sectors: nat, behind: seq<octet>): (r: Header)
    requires Get(h, HeaderSize) <= HEADER_BYTES + |behind| && 34 <= sectors < TWO64
    ensures Get(r, HeaderSize) == Get(h, HeaderSize)
  {
    var r := Set(Set(Set(h, LastUsable, sectors - 34), AlternateLba, sectors - 1), ArrayCrc, Checksum(table));
    PrimaryFields(h, sectors, Checksum(table));
    SealFields(r, behind);
    Seal(r, behind)
  }

  function BackupFor(primary: Header, sectors: nat, behind: seq<octet>): Header
    requires Get(primary, HeaderSize) <= HEADER_BYTES + |behind| && 34 <= sectors < TWO64
  {
    BackupFields(primary, sectors);
    Seal(Set(Set(Set(primary, MyLba, sectors - 1), AlternateLba, 1), EntryLba, sectors - 33), behind)
  }

  lemma PrimaryFields(h: Header, sectors: nat, crc: nat)
    requires 34 <= sectors < TWO64 && crc < Pow256(4)
    ensures var r := Set(Set(Set(h, LastUsable, sectors - 34), AlternateLba, sectors - 1), ArrayCrc, crc);
      && Get(r, LastUsable) == sectors - 34 && Get(r, AlternateLba) == sectors - 1 && Get(r, ArrayCrc) == crc
      && (forall f | f !in {LastUsable, AlternateLba, ArrayCrc} :: Get(r, f) == Get(h, f))
      && Signed(r) == Signed(h)
  {
    hide Get;
    hide Set;
    hide Signed;
    Powers();
    var r1 := Set(h, LastUsable, sectors - 34);
    var r2 := Set(r1, AlternateLba, sectors - 1);
    var r := Set(r2, ArrayCrc, crc);
    SignedSet(h, LastUsable, sectors - 34);
    SignedSet(r1, AlternateLba, sectors - 1);
    SignedSet(r2, ArrayCrc, crc);
    forall f ensures Get(r, f) == if f == ArrayCrc then crc else if f == AlternateLba then sectors - 1
                                  else if f == LastUsable then sectors - 34 else Get(h, f) {
      GetSet(h, LastUsable, sectors - 34, f);
      GetSet(r1, AlternateLba, sectors - 1, f);
      GetSet(r2, ArrayCrc, crc, f);
    }
  }

  lemma BackupFields(p: Header, sectors: nat)
    requires 34 <= sectors < TWO64
    ensures var r := Set(Set(Set(p, MyLba, sectors - 1), AlternateLba, 1), EntryLba, sectors - 33);
      && Get(r, MyLba) == sectors - 1 && Get(r, AlternateLba) == 1 && Get(r, EntryLba) == sectors - 33
      && (forall f | f !in {MyLba, AlternateLba, EntryLba} :: Get(r, f) == Get(p, f))
      && Signed(r) == Signed(p)
  {
    hide Get;
    hide Set;
    hide Signed;
    Powers();
    var r1 := Set(p, MyLba, sectors - 1);
    var r2 := Set(r1, AlternateLba, 1);
    var r := Set(r2, EntryLba, sectors - 33);
    SignedSet(p, MyLba, sectors - 1);
    SignedSet(r1, AlternateLba, 1);
    SignedSet(r2, EntryLba, sectors - 33);
    forall f ensures Get(r, f) == if f == EntryLba then sectors - 33 else if f == AlternateLba then 1
                                  else if f == MyLba then sectors - 1 else Get(p, f) {
      GetSet(p, MyLba, sectors - 1, f);
      GetSet(r1, AlternateLba, 1, f);
      GetSet(r2, EntryLba, sectors - 33, f);
    }
  }

  lemma Powers()
    ensures Pow256(4) == 0x1_0000_0000 && Pow256(8) == TWO64
  {
    assert Pow256(2) == 65536;
    assert Pow256(4) == 65536 * Pow256(2);
    assert Pow256(6) == 65536 * Pow256(4);
  }

  /** Sealing changes the checksum field only, and makes it match. */
  lemma SealFields(h: Header, behind: seq<octet>)
    requires Get(h, HeaderSize) <= HEADER_BYTES + |behind|
    ensures var r := Seal(h, behind);
      && (forall f | f != HeaderCrc :: Get(r, f) == Get(h, f))
      && Signed(r) == Signed(h) && SummedOver(r, behind)
  {
    hide Get;
    hide Set;
    hide Signed;
    hide Checksum;
    Powers();
    var z, size := Set(h, HeaderCrc, 0), Get(h, HeaderSize);
    var c := Checksum((z + behind)[..size]);
    var r := Set(z, HeaderCrc, c);
    SignedSet(h, HeaderCrc, 0);
    SignedSet(z, HeaderCrc, c);
    forall f ensures Get(r, f) == if f == HeaderCrc then c else Get(h, f) {
      GetSet(h, HeaderCrc, 0, f);
      GetSet(z, HeaderCrc, c, f);
    }
    SetAgain(h, HeaderCrc, 0, c);
  }

  lemma SetAgain(h: Header, f: Field, v: nat, w: nat)
    ensures Set(Set(Set(h, f, v), f, w), f, v) == Set(h, f, v)
  {
    hide Le;
    var off, a, b := At(f), Le(v, Width(f)), Le(w, Width(f));
    assert Patch(Patch(Patch(h, off, a), off, b), off, a) == Patch(h, off, a);
  }

  function PlanFor(d: seq<octet>, index: nat, m: Memory): Plan
    requires Covered(d, m) && |d| < TWO64
  {
    if !Readable(d, index) then Nothing
    else
      var h, a := PrimaryHeader(d), PrimaryArray(d, index);
      var size := Get(h, EntrySize);
      if !Used(a, size, index) || OtherBeyond(a, size, Get(h, EntryCount), index)
         || NewLast(d) - Last(a, size, index) < MIN_GROWTH then Nothing
      else
        var table := SetLast(a, size, index, NewLast(d));
        var primary := PrimaryFor(h, table, Sectors(d), m.primary);
        Grow(table, ArrayOffset(h), primary, BackupFor(primary, Sectors(d), m.backup))
  }

  // ---------- The writes ----------

  /** How much of a write gets through: no more than the disk has room for, or than the device takes. */
  function Accepted(d: seq<octet>, off: nat, data: seq<octet>, limit: nat): (n: nat)
    ensures n <= |data| && (n > 0 ==> off + n <= |d|)
  {
    var room := if off < |d| then |d| - off else 0;
    var n := if limit < |data| then limit else |data|;
    if n < room then n else room
  }

  function Written(d: seq<octet>, off: nat, data: seq<octet>, limit: nat): (r: seq<octet>)
    ensures |r| == |d|
  {
    var n := Accepted(d, off, data, limit);
    if n == 0 then d else Patch(d, off, data[..n])
  }

  /** The disk after the four writes, the last two only when the first two were complete. */
  function Performed(d: seq<octet>, plan: Plan, limits: seq<nat>): seq<octet>
    requires |limits| == 4
  {
    if plan == Nothing || Sectors(d) < 34 then d
    else
      var d1 := Written(d, plan.tableOff, plan.table, limits[0]);
      var d2 := Written(d1, SECTOR, plan.primary, limits[1]);
      if Accepted(d, plan.tableOff, plan.table, limits[0]) != |plan.table|
         || Accepted(d1, SECTOR, plan.primary, limits[1]) != HEADER_BYTES then d2
      else
        var d3 := Written(d2, (Sectors(d) - 33) * SECTOR, plan.table, limits[2]);
        Written(d3, (Sectors(d) - 1) * SECTOR, plan.backup, limits[3])
  }

  method Pwrite(disk: array<octet>, off: nat, data: seq<octet>, limit: nat) returns (n: nat)
    modifies disk
    ensures n == Accepted(old(disk[..]), off, data, limit)
    ensures n == |data| || n == limit || (off < disk.Length && off + n == disk.Length) || (off >= disk.Length && n == 0)
    ensures n <= |data| && n <= limit && (n > 0 ==> off + n <= disk.Length)
    ensures forall k | 0 <= k < disk.Length :: disk[k] == if off <= k < off + n then data[k - off] else old(disk[k])
    ensures disk[..] == Written(old(disk[..]), off, data, limit)
  {
    n := Accepted(disk[..], off, data, limit);
    ghost var d := disk[..];
    var i := 0;
    while i < n
      invariant i <= n && (n > 0 ==> off + n <= disk.Length == |d|)
      invariant forall k | 0 <= k < |d| :: disk[k] == if off <= k < off + i then data[k - off] else d[k]
    {
      disk[off + i] := data[i];
      i := i + 1;
    }
    assert n > 0 ==> disk[..] == Patch(d, off, data[..n]);
    assert n == 0 ==> disk[..] == d;
  }

  method Checksummed(data: seq<octet>) returns (r: nat)
    ensures r == Checksum(data)
  {
    var crc := Crc32.Crc32Gpt(ToBytes(data));
    r := crc as nat;
  }

  method Sealed(h: Header, behind: seq<octet>) returns (r: Header)
    requires Get(h, HeaderSize) <= HEADER_BYTES + |behind|
    ensures r == Seal(h, behind)
  {
    r := Set(h, HeaderCrc, 0);
    var crc := Checksummed((r + behind)[..Get(h, HeaderSize)]);
    r := Set(r, HeaderCrc, crc);
  }

  /** Looks for another entry that ends beyond this one. */
  method FindBeyond(a: seq<octet>, size: nat, count: nat, index: nat) returns (found: bool)
    requires index < count && forall i: nat | i < count :: InArray(a, size, i)
    ensures found == OtherBeyond(a, size, count, index)
  {
    hide Last;
    var i := 0;
    while i < count
      invariant i <= count
      invariant forall k: nat | k < i && k != index :: Last(a, size, k) <= Last(a, size, index)
    {
      if i != index && Last(a, size, i) > Last(a, size, index) {
        return true;
      }
      i := i + 1;
    }
    return false;
  }

  method EditHeaders(h: Header, entries: seq<octet>, sectors: nat, m: Memory) returns (hdr: Header, backup: Header)
    requires Get(h, HeaderSize) <= HEADER_BYTES + |m.primary| && Get(h, HeaderSize) <= HEADER_BYTES + |m.backup|
    requires 34 <= sectors < TWO64
    ensures hdr == PrimaryFor(h, entries, sectors, m.primary) && backup == BackupFor(hdr, sectors, m.backup)
  {
    hide Get;
    hide Set;
    hide Seal;
    hide Signed;
    hide Checksum;
    PrimaryFields(h, sectors, Checksum(entries));
    hdr := Set(h, LastUsable, sectors - 34);
    hdr := Set(hdr, AlternateLba, sectors - 1);
    var tableCrc := Checksummed(entries);
    hdr := Set(hdr, ArrayCrc, tableCrc);
    SealFields(hdr, m.primary);
    hdr := Sealed(hdr, m.primary);
    BackupFields(hdr, sectors);
    backup := Set(hdr, MyLba, sectors - 1);
    backup := Set(backup, AlternateLba, 1);
    backup := Set(backup, EntryLba, sectors - 33);
    backup := Sealed(backup, m.backup);
  }

  /** Reads header and table, checks them, and edits the copies in memory. */
  method EditTable(d: seq<octet>, index: nat, m: Memory) returns (plan: Plan)
    requires |d| < TWO64 && Covered(d, m)
    ensures plan == PlanFor(d, index, m)
  {
    hide Get;
    hide Set;
    hide Seal;
    hide Signed;
    hide Used;
    hide Last;
    hide SetLast;
    hide OtherBeyond;
    hide PrimaryFor;
    hide BackupFor;
    if |d| < MIN_DISK {
      return Nothing;
    }
    var sectors := |d| / SECTOR;
    var hdr: Header := d[SECTOR..SECTOR + HEADER_BYTES];
    if !Signed(hdr) {
      return Nothing;
    }
    var count, size := Get(hdr, EntryCount), Get(hdr, EntrySize);
    if index >= count || size < ENTRY_BYTES {
      return Nothing;
    }
    var bytes := count * size;
    var offset := ArrayOffset(hdr);
    if offset + bytes > |d| {
      return Nothing;
    }
    var entries := d[offset..offset + bytes];
    AllInArray(entries, size, count);
    if !Used(entries, size, index) {
      return Nothing;
    }
    var beyond := FindBeyond(entries, size, count, index);
    if beyond {
      return Nothing;
    }
    var newLast := sectors - 34;
    var growth := if newLast > Last(entries, size, index) then newLast - Last(entries, size, index) else 0;
    if growth < MIN_GROWTH {
      return Nothing;
    }
    entries := SetLast(entries, size, index, newLast);
    var primary, backup := EditHeaders(hdr, entries, sectors, m);
    return Grow(entries, offset, primary, backup);
  }

  /** `limits` is how much of each write the device would take. */
  method GrowGptPartition(disk: array<octet>, partNum: int, limits: seq<nat>, m: Memory)
    requires disk.Length < TWO64 && Covered(disk[..], m) && |limits| == 4
    modifies disk
    ensures disk[..] == if partNum < 1 then old(disk[..])
                        else Performed(old(disk[..]), PlanFor(old(disk[..]), partNum - 1, m), limits)
  {
    hide PlanFor;
    hide Covered;
    hide Accepted;
    hide Written;
    if partNum < 1 {
      return;
    }
    var plan := EditTable(disk[..], partNum - 1, m);
    if plan == Nothing || disk.Length / SECTOR < 34 {
      return;
    }
    var w1 := Pwrite(disk, plan.tableOff, plan.table, limits[0]);
    var w2 := Pwrite(disk, SECTOR, plan.primary, limits[1]);
    if w1 != |plan.table| || w2 != HEADER_BYTES {
      return;
    }
    var w3 := Pwrite(disk, (disk.Length / SECTOR - 33) * SECTOR, plan.table, limits[2]);
    var w4 := Pwrite(disk, (disk.Length / SECTOR - 1) * SECTOR, plan.backup, limits[3]);
  }

  // ---------- What growing does to the partitions ----------

  /** Used entries cover non-empty, pairwise disjoint ranges of sectors. */
  predicate Disjoint(a: seq<octet>, size: nat, count: nat)
    requires forall i: nat | i < count :: InArray(a, size, i)
  {
    && (forall i: nat | i < count && Used(a, size, i) :: First(a, size, i) <= Last(a, size, i))
    && (forall i: nat, j: nat | i < count && j < count && i != j && Used(a, size, i) && Used(a, size, j) ::
          Last(a, size, i) < First(a, size, j) || Last(a, size, j) < First(a, size, i))
  }

  lemma EntriesApart(i: nat, j: nat, size: nat)
    requires i < j
    ensures i * size + size <= j * size
  {
    assert (i + 1) * size <= j * size;
  }

  lemma SetLastEntries(a: seq<octet>, size: nat, index: nat, v: nat, i: nat)
    requires InArray(a, size, index) && InArray(a, size, i) && v < TWO64
    ensures var t := SetLast(a, size, index, v);
      && Used(t, size, i) == Used(a, size, i) && First(t, size, i) == First(a, size, i)
      && Last(t, size, i) == (if i == index then v else Last(a, size, i))
      && i * size + size <= |a|
      && (i != index ==> Slice(t, i * size, size) == Slice(a, i * size, size))
  {
    hide Slice;
    hide Patch;
    hide Num;
    hide Le;
    Powers();
    EntryRoom(a, size, index);
    EntryRoom(a, size, i);
    assert (i + 1) * size == i * size + size;
    if i < index { EntriesApart(i, index, size); }
    if index < i { EntriesApart(index, i, size); }
    var off := index * size + 40;
    StoreLoad(a, off, 8, v, i * size + 40, 8);
    StoreLoad(a, off, 8, v, i * size + 32, 8);
    PatchSlice(a, off, Le(v, 8), i * size, 16);
    if i != index {
      PatchSlice(a, off, Le(v, 8), i * size, size);
    }
  }

  /**
   The table t comes from a by growing one entry: used entries are disjoint, every other entry is
   the same octet for octet, and the grown one keeps its start and gains at least 4096 sectors.
   */
  predicate GrownFrom(a: seq<octet>, t: seq<octet>, size: nat, count: nat, index: nat, last: nat)
    requires index < count && forall i: nat | i < count :: InArray(a, size, i)
  {
    && |t| == |a| && (forall i: nat | i < count :: InArray(t, size, i))
    && Disjoint(t, size, count)
    && (forall i: nat | i < count && i != index ::
          i * size + size <= |a| && Slice(t, i * size, size) == Slice(a, i * size, size))
    && First(t, size, index) == First(a, size, index)
    && Last(t, size, index) == last >= Last(a, size, index) + MIN_GROWTH
  }

  lemma SetLastGrows(a: seq<octet>, size: nat, count: nat, index: nat, last: nat)
    requires index < count && forall i: nat | i < count :: InArray(a, size, i)
    requires Disjoint(a, size, count) && Used(a, size, index) && !OtherBeyond(a, size, count, index)
    requires Last(a, size, index) + MIN_GROWTH <= last < TWO64
    ensures GrownFrom(a, SetLast(a, size, index, last), size, count, index, last)
  {
    hide SetLast;
    hide Used;
    hide First;
    hide Last;
    hide Slice;
    hide InArray;
    var t := SetLast(a, size, index, last);
    SameArray(a, t, size, count);
    forall i: nat | i < count
      ensures Used(t, size, i) == Used(a, size, i) && First(t, size, i) == First(a, size, i)
      ensures Last(t, size, i) == if i == index then last else Last(a, size, i)
      ensures i * size + size <= |a| && (i != index ==> Slice(t, i * size, size) == Slice(a, i * size, size))
    {
      SetLastEntries(a, size, index, last, i);
    }
  }

  /** Growing keeps the layout, and the target ends right before the sectors of the backup array. */
  lemma GrowthKeepsLayout(d: seq<octet>, index: nat, m: Memory)
    requires Covered(d, m) && |d| < TWO64 && PlanFor(d, index, m).Grow?
    requires Disjoint(PrimaryArray(d, index), Get(PrimaryHeader(d), EntrySize), Get(PrimaryHeader(d), EntryCount))
    ensures var h := PrimaryHeader(d);
      GrownFrom(PrimaryArray(d, index), PlanFor(d, index, m).table, Get(h, EntrySize), Get(h, EntryCount), index,
                Sectors(d) - 33 - 1)
  {
    hide Get;
    hide SetLast;
    hide Used;
    hide First;
    hide Last;
    hide OtherBeyond;
    hide Disjoint;
    hide GrownFrom;
    hide PrimaryFor;
    hide BackupFor;
    var h := PrimaryHeader(d);
    SetLastGrows(PrimaryArray(d, index), Get(h, EntrySize), Get(h, EntryCount), index, NewLast(d));
  }

  lemma SameArray(a: seq<octet>, t: seq<octet>, size: nat, count: nat)
    requires |t| == |a| && forall i: nat | i < count :: InArray(a, size, i)
    ensures forall i: nat | i < count :: InArray(t, size, i)
  {
    assert forall i: nat | i < count :: InArray(a, size, i) ==> InArray(t, size, i);
  }

  // ---------- Headers no longer than the structure ----------

  lemma SealSame(h: Header, a: seq<octet>, b: seq<octet>)
    requires Get(h, HeaderSize) <= HEADER_BYTES
    ensures Seal(h, a) == Seal(h, b)
  {
    hide Get;
    hide Set;
    hide Checksum;
    var z, size := Set(h, HeaderCrc, 0), Get(h, HeaderSize);
    assert (z + a)[..size] == z[..size] == (z + b)[..size];
  }

  /** Without a longer header, the plan does not depend on other memory. */
  lemma MemoryIrrelevant(d: seq<octet>, index: nat, m: Memory, other: Memory)
    requires SaneHeader(d) && |d| < TWO64
    ensures PlanFor(d, index, m) == PlanFor(d, index, other)
  {
    hide Get;
    hide Set;
    hide Seal;
    hide Signed;
    hide Used;
    hide Last;
    hide OtherBeyond;
    if Readable(d, index) && Sectors(d) >= 34 {
      var h, n := PrimaryHeader(d), Sectors(d);
      forall table: seq<octet>
        ensures PrimaryFor(h, table, n, m.primary) == PrimaryFor(h, table, n, other.primary)
        ensures var p := PrimaryFor(h, table, n, m.primary); BackupFor(p, n, m.backup) == BackupFor(p, n, other.backup)
      {
        PrimaryFields(h, n, Checksum(table));
        SealSame(Set(Set(Set(h, LastUsable, n - 34), AlternateLba, n - 1), ArrayCrc, Checksum(table)), m.primary,
                 other.primary);
        var p := PrimaryFor(h, table, n, m.primary);
        BackupFields(p, n);
        SealSame(Set(Set(Set(p, MyLba, n - 1), AlternateLba, 1), EntryLba, n - 33), m.backup, other.backup);
      }
    }
  }
}
