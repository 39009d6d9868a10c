/**
 What is on the disk when the growing of a partition stops, wherever it stops. A reader sums as many
 octets of a header's sector as the header says; the code sums as many octets of its memory. The two
 agree for headers no longer than the structure, and beyond that exactly if the difference between the
 memory and the disk leaves no remainder.
 */
module GptSafety {
  import opened Octets
  import Crc32
  import opened Gpt

  const REST: nat := SECTOR - HEADER_BYTES

  // ---------- Memory and disk under one checksum ----------

  /** The checksum cannot tell one from the other. */
  predicate Congruent(a: seq<octet>, b: seq<octet>)
  {
    |a| == |b| && Crc32.Remainder(ToBytes(a), ToBytes(b)) == 0
  }

  lemma ToBytesAppend(a: seq<octet>, b: seq<octet>)
    ensures ToBytes(a + b) == ToBytes(a) + ToBytes(b)
  {
    hide ToByte;
  }

  lemma WordAsNat(x: bv32, y: bv32)
    requires x as nat == y as nat
    ensures x == y
  {
    assert (x as nat) as bv32 == x && (y as nat) as bv32 == y;
  }

  lemma SumsAgree(before: seq<octet>, a: seq<octet>, b: seq<octet>, after: seq<octet>)
    requires |a| == |b|
    ensures Checksum(before + a + after) == Checksum(before + b + after) <==> Congruent(a, b)
  {
    hide ToBytes;
    hide Crc32.Crc;
    hide Crc32.Remainder;
    ToBytesAppend(before + a, after);
    ToBytesAppend(before + b, after);
    ToBytesAppend(before, a);
    ToBytesAppend(before, b);
    Crc32.UndetectedExactlyIf(ToBytes(before), ToBytes(a), ToBytes(b), ToBytes(after));
    if Checksum(before + a + after) == Checksum(before + b + after) {
      WordAsNat(Crc32.Crc(ToBytes(before + a + after)), Crc32.Crc(ToBytes(before + b + after)));
    }
  }

  lemma CongruentSame(a: seq<octet>)
    ensures Congruent(a, a)
  {
    hide Congruent;
    SumsAgree([], a, a, []);
  }

  /** Up to four octets that differ are always told apart. */
  lemma CongruentFour(a: seq<octet>, b: seq<octet>)
    requires |a| == |b| <= 4
    ensures Congruent(a, b) <==> a == b
  {
    hide Crc32.Remainder;
    if a == b {
      CongruentSame(a);
    } else {
      if ToBytes(a) == ToBytes(b) { ToBytesInjective(a, b); }
      Crc32.DetectsFourOctets([], ToBytes(a), ToBytes(b), []);
      Crc32.UndetectedExactlyIf([], ToBytes(a), ToBytes(b), []);
    }
  }

  /** All differences are within 32 consecutive bits. */
  predicate WithinBurst(a: seq<octet>, b: seq<octet>, from: nat)
  {
    var p, q := Crc32.MessageBits(ToBytes(a)), Crc32.MessageBits(ToBytes(b));
    |p| == |q| && forall k | 0 <= k < |p| && !(from <= k < from + 32) :: p[k] == q[k]
  }

  /** And so are any number of octets, if they differ within 32 consecutive bits only. */
  lemma CongruentBurst(a: seq<octet>, b: seq<octet>, from: nat)
    requires |a| == |b| && WithinBurst(a, b, from)
    ensures Congruent(a, b) <==> a == b
  {
    hide Crc32.Remainder;
    hide Crc32.MessageBits;
    hide Crc32.Crc;
    hide ToBytes;
    if a == b {
      CongruentSame(a);
    } else {
      if ToBytes(a) == ToBytes(b) { ToBytesInjective(a, b); }
      Crc32.DetectsBursts(ToBytes(a), ToBytes(b), from);
      Crc32.UndetectedExactlyIf([], ToBytes(a), ToBytes(b), []);
      assert [] + ToBytes(a) + [] == ToBytes(a) && [] + ToBytes(b) + [] == ToBytes(b);
    }
  }

  /** Five octets can differ and not be told apart. */
  lemma CongruentFive()
    ensures Congruent([0x41, 0x06, 0x71, 0xDB, 0x01], [0, 0, 0, 0, 0])
  {
    hide Crc32.Remainder;
    hide ToByte;
    Crc32.GeneratorUndetected();
    ToByteOf(0x41);
    ToByteOf(0x06);
    ToByteOf(0x71);
    ToByteOf(0xDB);
    ToByteOf(0x01);
    ToByteOf(0);
    assert ToBytes([0x41, 0x06, 0x71, 0xDB, 0x01]) == Crc32.GENERATOR;
    assert ToBytes([0, 0, 0, 0, 0]) == [0, 0, 0, 0, 0];
  }

  /** What lies behind the header, as far as the header says it is longer than the structure. */
  function Tail(h: Header, behind: seq<octet>): (t: seq<octet>)
    requires Get(h, HeaderSize) <= HEADER_BYTES + |behind|
  {
    if Get(h, HeaderSize) <= HEADER_BYTES then [] else behind[..Get(h, HeaderSize) - HEADER_BYTES]
  }

  lemma SummedInParts(h: Header, behind: seq<octet>)
    requires Get(h, HeaderSize) <= HEADER_BYTES + |behind|
    ensures var z, size := Set(h, HeaderCrc, 0), Get(h, HeaderSize);
      (z + behind)[..size] == z[..if size < HEADER_BYTES then size else HEADER_BYTES] + Tail(h, behind)
  {
    hide Get;
    hide Set;
  }

  /** A header summed over one memory checks out over another exactly if the two tails are congruent. */
  lemma SummedElsewhere(h: Header, a: seq<octet>, b: seq<octet>)
    requires Get(h, HeaderSize) <= HEADER_BYTES + |a| && Get(h, HeaderSize) <= HEADER_BYTES + |b| && SummedOver(h, a)
    ensures SummedOver(h, b) <==> Congruent(Tail(h, a), Tail(h, b))
  {
    hide Get;
    hide Set;
    hide Checksum;
    hide Congruent;
    var z, size := Set(h, HeaderCrc, 0), Get(h, HeaderSize);
    var head := z[..if size < HEADER_BYTES then size else HEADER_BYTES];
    SummedInParts(h, a);
    SummedInParts(h, b);
    SumsAgree(head, Tail(h, a), Tail(h, b), []);
    assert head + Tail(h, a) + [] == head + Tail(h, a) && head + Tail(h, b) + [] == head + Tail(h, b);
  }

  // ---------- Pairs on the disk ----------

  function HeaderAt(d: seq<octet>, lba: nat): Header
    requires (lba + 1) * SECTOR <= |d|
  {
    Slice(d, lba * SECTOR, HEADER_BYTES)
  }

  /** The octets of the sector behind the header. */
  function RestAt(d: seq<octet>, lba: nat): (r: seq<octet>)
    requires (lba + 1) * SECTOR <= |d|
    ensures |r| == REST
  {
    Slice(d, lba * SECTOR + HEADER_BYTES, REST)
  }

  /** What a reader of the disk checks of a header and the rest of its sector. */
  predicate Verified(h: Header, rest: seq<octet>, lba: nat)
    requires |rest| == REST
  {
    Signed(h) && Get(h, MyLba) == lba && Get(h, HeaderSize) <= SECTOR && SummedOver(h, rest)
  }

  /** The array that a header names is on the disk, with the stored checksum. */
  predicate NamesArray(d: seq<octet>, h: Header)
  {
    && Get(h, EntryLba) * SECTOR + ArrayBytes(h) <= |d|
    && Get(h, ArrayCrc) == Checksum(Slice(d, Get(h, EntryLba) * SECTOR, ArrayBytes(h)))
  }

  /** A header at that block and the array it names, with both stored checksums right. */
  predicate ValidPair(d: seq<octet>, lba: nat)
  {
    (lba + 1) * SECTOR <= |d| && Verified(HeaderAt(d, lba), RestAt(d, lba), lba) && NamesArray(d, HeaderAt(d, lba))
  }

  /** A write that may have been cut short or garbled: nothing outside its region has changed. */
  ghost predicate Torn(before: seq<octet>, after: seq<octet>, off: nat, n: nat)
  {
    |after| == |before| && forall i | 0 <= i < |before| && !(off <= i < off + n) :: after[i] == before[i]
  }

  predicate Apart(off: nat, n: nat, at: nat, m: nat)
  {
    off + n <= at || at + m <= off
  }

  /** The table lies between the primary header and the sectors of the backup. */
  predicate Layout(d: seq<octet>)
  {
    |d| >= MIN_DISK &&
    var h := PrimaryHeader(d);
    && Get(h, EntryLba) >= 2
    && Get(h, EntryLba) * SECTOR + ArrayBytes(h) <= (Sectors(d) - 33) * SECTOR
  }

  /** The code has something to do on a disk whose primary header is where it says. */
  predicate Grows(d: seq<octet>, index: nat, m: Memory)
  {
    && |d| < TWO64 && Covered(d, m) && Layout(d) && PlanFor(d, index, m).Grow?
    && Get(PrimaryHeader(d), MyLba) == 1
  }

  /** The memory behind one header and the rest of that sector come to the same checksum. */
  predicate Harmless(h: Header, behind: seq<octet>, rest: seq<octet>)
    requires Get(h, HeaderSize) <= HEADER_BYTES + |behind| && |rest| == REST
  {
    Get(h, HeaderSize) <= SECTOR && Congruent(Tail(h, behind), Tail(h, rest))
  }

  predicate PrimarySound(d: seq<octet>, m: Memory)
    requires |d| >= MIN_DISK && Covered(d, m)
  {
    Harmless(PrimaryHeader(d), m.primary, RestAt(d, 1))
  }

  predicate BackupSound(d: seq<octet>, m: Memory)
    requires |d| >= MIN_DISK && Covered(d, m)
  {
    Harmless(PrimaryHeader(d), m.backup, RestAt(d, Sectors(d) - 1))
  }

  /** No condition at all for headers no longer than the structure. */
  lemma SaneIsSound(d: seq<octet>, m: Memory)
    requires |d| >= MIN_DISK && SaneHeader(d)
    ensures Covered(d, m) && PrimarySound(d, m) && BackupSound(d, m)
  {
    hide Get;
    hide Slice;
    hide Congruent;
    CongruentSame([]);
  }

  /** The pair at that block, found through the old header, shares nothing with the primary pair. */
  predicate OldBackup(d: seq<octet>, lba: nat)
  {
    && |d| >= MIN_DISK && ValidPair(d, lba) && lba != 1 &&
    var h, b := PrimaryHeader(d), HeaderAt(d, lba);
    && Apart(SECTOR, HEADER_BYTES, Get(b, EntryLba) * SECTOR, ArrayBytes(b))
    && Apart(Get(h, EntryLba) * SECTOR, ArrayBytes(h), lba * SECTOR, SECTOR)
    && Apart(Get(h, EntryLba) * SECTOR, ArrayBytes(h), Get(b, EntryLba) * SECTOR, ArrayBytes(b))
  }

  lemma TornSlice(before: seq<octet>, after: seq<octet>, off: nat, n: nat, at: nat, m: nat)
    requires Torn(before, after, off, n) && Apart(off, n, at, m) && at + m <= |before|
    ensures Slice(after, at, m) == Slice(before, at, m)
  {
  }

  lemma PatchTorn(d: seq<octet>, off: nat, data: seq<octet>)
    requires off + |data| <= |d|
    ensures Torn(d, Patch(d, off, data), off, |data|)
    ensures Slice(Patch(d, off, data), off, |data|) == data
  {
  }

  lemma TornLength(before: seq<octet>, after: seq<octet>, off: nat, n: nat)
    requires Torn(before, after, off, n)
    ensures |after| == |before|
  {
  }

  /** Validity of a pair only depends on the octets of its two regions. */
  lemma PairFrame(d: seq<octet>, e: seq<octet>, lba: nat, off: nat, n: nat)
    requires ValidPair(d, lba) && Torn(d, e, off, n) && Apart(off, n, lba * SECTOR, SECTOR)
    requires Apart(off, n, Get(HeaderAt(d, lba), EntryLba) * SECTOR, ArrayBytes(HeaderAt(d, lba)))
    ensures ValidPair(e, lba) && HeaderAt(e, lba) == HeaderAt(d, lba)
  {
    hide Get;
    hide Slice;
    hide Torn;
    hide Verified;
    hide Checksum;
    var h := HeaderAt(d, lba);
    TornLength(d, e, off, n);
    TornSlice(d, e, off, n, lba * SECTOR, HEADER_BYTES);
    TornSlice(d, e, off, n, lba * SECTOR + HEADER_BYTES, REST);
    TornSlice(d, e, off, n, Get(h, EntryLba) * SECTOR, ArrayBytes(h));
  }

  /** What the planned headers say, and over which memory they are summed. */
  lemma PlannedHeaders(d: seq<octet>, index: nat, m: Memory)
    requires Grows(d, index, m)
    ensures var h, plan, n := PrimaryHeader(d), PlanFor(d, index, m), Sectors(d);
      && n >= 34 && plan.tableOff == Get(h, EntryLba) * SECTOR && |plan.table| == ArrayBytes(h)
      && Signed(plan.primary) && Signed(plan.backup)
      && Get(plan.primary, MyLba) == 1 && Get(plan.backup, MyLba) == n - 1
      && (forall f | f in {EntryLba, EntryCount, EntrySize, HeaderSize} :: Get(plan.primary, f) == Get(h, f))
      && (forall f | f in {EntryCount, EntrySize, HeaderSize} :: Get(plan.backup, f) == Get(h, f))
      && Get(plan.backup, EntryLba) == n - 33
      && Get(plan.primary, AlternateLba) == n - 1 && Get(plan.backup, AlternateLba) == 1
      && Get(plan.primary, LastUsable) == Get(plan.backup, LastUsable) == n - 34
      && Get(plan.primary, ArrayCrc) == Get(plan.backup, ArrayCrc) == Checksum(plan.table)
      && SummedOver(plan.primary, m.primary) && SummedOver(plan.backup, m.backup)
  {
    hide Get;
    hide Set;
    hide Seal;
    hide Signed;
    hide Checksum;
    hide OtherBeyond;
    hide Used;
    hide SetLast;
    hide Last;
    hide SummedOver;
    var h, plan, n := PrimaryHeader(d), PlanFor(d, index, m), Sectors(d);
    var r := Set(Set(Set(h, LastUsable, n - 34), AlternateLba, n - 1), ArrayCrc, Checksum(plan.table));
    PrimaryFields(h, n, Checksum(plan.table));
    SealFields(r, m.primary);
    assert plan.primary == Seal(r, m.primary);
    var b := Set(Set(Set(plan.primary, MyLba, n - 1), AlternateLba, 1), EntryLba, n - 33);
    BackupFields(plan.primary, n);
    SealFields(b, m.backup);
    assert plan.backup == Seal(b, m.backup);
  }

  /** A header that the code has summed is verified at its block exactly if that memory was harmless. */
  lemma VerifiedExactlyIf(h: Header, p: Header, behind: seq<octet>, rest: seq<octet>, lba: nat)
    requires |rest| == REST && Get(h, HeaderSize) == Get(p, HeaderSize) <= HEADER_BYTES + |behind|
    requires Signed(p) && Get(p, MyLba) == lba && SummedOver(p, behind)
    ensures Verified(p, rest, lba) <==> Harmless(h, behind, rest)
  {
    hide Get;
    hide Signed;
    hide SummedOver;
    hide Congruent;
    if Get(p, HeaderSize) <= SECTOR {
      SummedElsewhere(p, behind, rest);
    }
  }

  /** The disk once both writes of the primary pair are complete. */
  function PrimaryDone(d: seq<octet>, plan: Plan): (e: seq<octet>)
    requires plan.Grow? && |d| >= MIN_DISK && plan.tableOff + |plan.table| <= |d|
    ensures |e| == |d|
  {
    Patch(Patch(d, plan.tableOff, plan.table), SECTOR, plan.primary)
  }

  lemma PrimaryDoneParts(d: seq<octet>, index: nat, m: Memory)
    requires Grows(d, index, m)
    ensures var plan := PlanFor(d, index, m);
      && plan.tableOff + |plan.table| <= |d|
      && var e := PrimaryDone(d, plan);
        && HeaderAt(e, 1) == plan.primary && RestAt(e, 1) == RestAt(d, 1)
        && Slice(e, plan.tableOff, |plan.table|) == plan.table
  {
    hide Get;
    hide Slice;
    hide Patch;
    hide Torn;
    hide SummedOver;
    hide Checksum;
    hide Signed;
    hide PlanFor;
    var plan := PlanFor(d, index, m);
    PlannedHeaders(d, index, m);
    var d1 := Patch(d, plan.tableOff, plan.table);
    var e := Patch(d1, SECTOR, plan.primary);
    PatchTorn(d, plan.tableOff, plan.table);
    PatchTorn(d1, SECTOR, plan.primary);
    TornSlice(d1, e, SECTOR, HEADER_BYTES, plan.tableOff, |plan.table|);
    TornSlice(d, d1, plan.tableOff, |plan.table|, SECTOR + HEADER_BYTES, REST);
    TornSlice(d1, e, SECTOR, HEADER_BYTES, SECTOR + HEADER_BYTES, REST);
  }

  /** The primary pair then verifies exactly if the memory behind the header was harmless. */
  lemma PrimaryDoneValid(d: seq<octet>, index: nat, m: Memory)
    requires Grows(d, index, m)
    ensures var plan := PlanFor(d, index, m);
      plan.tableOff + |plan.table| <= |d| && (ValidPair(PrimaryDone(d, plan), 1) <==> PrimarySound(d, m))
  {
    hide Get;
    hide Slice;
    hide Verified;
    hide Harmless;
    hide SummedOver;
    hide Checksum;
    hide Signed;
    hide PlanFor;
    hide PrimaryDone;
    var plan := PlanFor(d, index, m);
    PlannedHeaders(d, index, m);
    PrimaryDoneParts(d, index, m);
    VerifiedExactlyIf(PrimaryHeader(d), plan.primary, m.primary, RestAt(d, 1), 1);
    assert NamesArray(PrimaryDone(d, plan), plan.primary);
  }

  // ---------- Crash safety ----------

  /**
   Whatever is left of the four writes when the machine stops, a header and array pair that
   verifies is left with it: the old backup while the primary pair is being written, in any state
   of those two writes; the new primary from then on, in any state of the other two.
   */
  lemma CrashSafe(d: seq<octet>, index: nat, alt: nat, d1: seq<octet>, d2: seq<octet>, d3: seq<octet>, d4: seq<octet>,
                  m: Memory)
    requires Grows(d, index, m) && PrimarySound(d, m) && OldBackup(d, alt)
    requires var plan := PlanFor(d, index, m);
      Torn(d, d1, plan.tableOff, |plan.table|) && Torn(d1, d2, SECTOR, HEADER_BYTES)
    requires var n, plan := Sectors(d), PlanFor(d, index, m);
      Torn(d2, d3, (n - 33) * SECTOR, |plan.table|) && Torn(d3, d4, (n - 1) * SECTOR, HEADER_BYTES)
    ensures ValidPair(d1, alt) && ValidPair(d2, alt)
    ensures var plan := PlanFor(d, index, m);
      plan.tableOff + |plan.table| <= |d| && d2 == PrimaryDone(d, plan) ==>
        ValidPair(d2, 1) && ValidPair(d3, 1) && ValidPair(d4, 1)
  {
    hide Get;
    hide Slice;
    hide Patch;
    hide Torn;
    hide SummedOver;
    hide Signed;
    hide Checksum;
    hide ValidPair;
    hide PrimarySound;
    hide PlanFor;
    hide PrimaryDone;
    var plan, n := PlanFor(d, index, m), Sectors(d);
    PlannedHeaders(d, index, m);
    PairFrame(d, d1, alt, plan.tableOff, |plan.table|);
    PairFrame(d1, d2, alt, SECTOR, HEADER_BYTES);
    PrimaryDoneParts(d, index, m);
    PrimaryDoneValid(d, index, m);
    if d2 == PrimaryDone(d, plan) {
      PairFrame(d2, d3, 1, (n - 33) * SECTOR, |plan.table|);
      PairFrame(d3, d4, 1, (n - 1) * SECTOR, HEADER_BYTES);
    }
  }

  lemma WrittenTorn(d: seq<octet>, off: nat, data: seq<octet>, limit: nat)
    ensures Torn(d, Written(d, off, data, limit), off, |data|)
    ensures Accepted(d, off, data, limit) == |data| && data != [] ==>
      off + |data| <= |d| && Written(d, off, data, limit) == Patch(d, off, data)
  {
    var n := Accepted(d, off, data, limit);
    if n > 0 {
      PatchTorn(d, off, data[..n]);
    }
    assert data[..|data|] == data;
  }

  /** So a run of the code, however much of each write the device takes, leaves a pair that verifies. */
  lemma RunLeavesValidPair(d: seq<octet>, index: nat, alt: nat, limits: seq<nat>, m: Memory)
    requires |d| < TWO64 && Covered(d, m) && Layout(d) && |limits| == 4
    requires PrimarySound(d, m) && ValidPair(d, 1) && OldBackup(d, alt)
    ensures var r := Performed(d, PlanFor(d, index, m), limits); ValidPair(r, 1) || ValidPair(r, alt)
  {
    hide Get;
    hide Slice;
    hide Patch;
    hide Torn;
    hide Checksum;
    hide Set;
    hide Signed;
    hide SummedOver;
    hide PrimarySound;
    hide PlanFor;
    hide Written;
    hide Accepted;
    var plan, n := PlanFor(d, index, m), Sectors(d);
    if plan.Grow? {
      PlannedHeaders(d, index, m);
      PrimaryDoneParts(d, index, m);
      var d1 := Written(d, plan.tableOff, plan.table, limits[0]);
      var d2 := Written(d1, SECTOR, plan.primary, limits[1]);
      var d3 := Written(d2, (n - 33) * SECTOR, plan.table, limits[2]);
      var d4 := Written(d3, (n - 1) * SECTOR, plan.backup, limits[3]);
      WrittenTorn(d, plan.tableOff, plan.table, limits[0]);
      WrittenTorn(d1, SECTOR, plan.primary, limits[1]);
      WrittenTorn(d2, (n - 33) * SECTOR, plan.table, limits[2]);
      WrittenTorn(d3, (n - 1) * SECTOR, plan.backup, limits[3]);
      CrashSafe(d, index, alt, d1, d2, d3, d4, m);
      if Accepted(d, plan.tableOff, plan.table, limits[0]) == |plan.table| {
        TableNotEmpty(d, index, m);
      }
    }
  }

  lemma TableNotEmpty(d: seq<octet>, index: nat, m: Memory)
    requires Covered(d, m) && |d| < TWO64 && PlanFor(d, index, m).Grow?
    ensures PlanFor(d, index, m).table != []
  {
    hide Get;
    hide SetLast;
    hide Used;
    hide Last;
    hide OtherBeyond;
    hide PrimaryFor;
    hide BackupFor;
    hide Slice;
    var h := PrimaryHeader(d);
    var a := PrimaryArray(d, index);
    EntryRoom(a, Get(h, EntrySize), index);
  }

  // ---------- After four complete writes ----------

  /** The disk after the third write; an array that does not fit is cut at the end of the disk. */
  function TableTwice(d: seq<octet>, plan: Plan): (e: seq<octet>)
    requires plan.Grow? && |d| >= MIN_DISK && plan.tableOff + |plan.table| <= |d|
    ensures |e| == |d|
  {
    Written(PrimaryDone(d, plan), (Sectors(d) - 33) * SECTOR, plan.table, |d|)
  }

  function Finished(d: seq<octet>, plan: Plan): (e: seq<octet>)
    requires plan.Grow? && |d| >= MIN_DISK && plan.tableOff + |plan.table| <= |d|
    ensures |e| == |d|
  {
    Patch(TableTwice(d, plan), (Sectors(d) - 1) * SECTOR, plan.backup)
  }

  /** A device that takes every octet it has room for leaves the finished disk. */
  lemma FullRunFinishes(d: seq<octet>, index: nat, limits: seq<nat>, m: Memory)
    requires Grows(d, index, m) && |limits| == 4 && forall i | 0 <= i < 4 :: limits[i] >= |d|
    ensures var plan := PlanFor(d, index, m);
      plan.tableOff + |plan.table| <= |d| && Performed(d, plan, limits) == Finished(d, plan)
  {
    hide Get;
    hide Slice;
    hide Patch;
    hide PlanFor;
    hide Written;
    hide Accepted;
    hide Signed;
    hide SummedOver;
    hide Checksum;
    var plan, n := PlanFor(d, index, m), Sectors(d);
    PlannedHeaders(d, index, m);
    TableNotEmpty(d, index, m);
    FullWrite(d, plan.tableOff, plan.table, limits[0]);
    var d1 := Patch(d, plan.tableOff, plan.table);
    FullWrite(d1, SECTOR, plan.primary, limits[1]);
    var d2 := Patch(d1, SECTOR, plan.primary);
    LimitIrrelevant(d2, (n - 33) * SECTOR, plan.table, limits[2]);
    FullWrite(TableTwice(d, plan), (n - 1) * SECTOR, plan.backup, limits[3]);
  }

  lemma FullWrite(d: seq<octet>, off: nat, data: seq<octet>, limit: nat)
    requires data != [] && off + |data| <= |d| <= limit
    ensures Accepted(d, off, data, limit) == |data| && Written(d, off, data, limit) == Patch(d, off, data)
  {
    assert data[..|data|] == data;
  }

  lemma LimitIrrelevant(d: seq<octet>, off: nat, data: seq<octet>, limit: nat)
    requires |d| <= limit
    ensures Written(d, off, data, limit) == Written(d, off, data, |d|)
  {
  }

  lemma SecondRun(d: seq<octet>, index: nat, e: seq<octet>, m: Memory, later: Memory)
    requires Grows(d, index, m) && |e| == |d| && Covered(d, later)
    requires var plan := PlanFor(d, index, m);
      && Slice(e, SECTOR, HEADER_BYTES) == plan.primary
      && plan.tableOff + |plan.table| <= |d| && Slice(e, plan.tableOff, |plan.table|) == plan.table
    ensures Covered(e, later) && PlanFor(e, index, later) == Nothing
  {
    hide Get;
    hide Slice;
    hide Signed;
    hide SummedOver;
    hide PrimaryFor;
    hide BackupFor;
    hide Used;
    hide Last;
    hide SetLast;
    hide OtherBeyond;
    hide InArray;
    PlannedHeaders(d, index, m);
    var h, plan := PrimaryHeader(d), PlanFor(d, index, m);
    var a, size := PrimaryArray(d, index), Get(h, EntrySize);
    SetLastEntries(a, size, index, NewLast(d), index);
    assert PrimaryHeader(e) == plan.primary;
    if Readable(e, index) {
      assert PrimaryArray(e, index) == plan.table;
    }
  }

  /** The last two writes leave the primary pair alone. */
  lemma FinishedPrimary(d: seq<octet>, index: nat, m: Memory)
    requires Grows(d, index, m)
    ensures var plan := PlanFor(d, index, m);
      && plan.tableOff + |plan.table| <= |d|
      && var e := Finished(d, plan);
        && HeaderAt(e, 1) == plan.primary && RestAt(e, 1) == RestAt(d, 1)
        && Slice(e, plan.tableOff, |plan.table|) == plan.table
        && (ValidPair(e, 1) <==> PrimarySound(d, m))
  {
    hide Get;
    hide Slice;
    hide Patch;
    hide Torn;
    hide Verified;
    hide Harmless;
    hide SummedOver;
    hide Signed;
    hide Checksum;
    hide PlanFor;
    hide PrimaryDone;
    hide Written;
    var plan, n := PlanFor(d, index, m), Sectors(d);
    PlannedHeaders(d, index, m);
    PrimaryDoneParts(d, index, m);
    var d2 := PrimaryDone(d, plan);
    var d3 := TableTwice(d, plan);
    var e := Finished(d, plan);
    WrittenTorn(d2, (n - 33) * SECTOR, plan.table, |d|);
    PatchTorn(d3, (n - 1) * SECTOR, plan.backup);
    Untouched(d2, d3, (n - 33) * SECTOR, |plan.table|, plan.tableOff, |plan.table|);
    Untouched(d3, e, (n - 1) * SECTOR, HEADER_BYTES, plan.tableOff, |plan.table|);
    VerifiedExactlyIf(PrimaryHeader(d), plan.primary, m.primary, RestAt(d, 1), 1);
    assert NamesArray(e, plan.primary);
  }

  lemma Untouched(d: seq<octet>, e: seq<octet>, off: nat, n: nat, at: nat, size: nat)
    requires Torn(d, e, off, n) && at + size <= off && 2 * SECTOR <= off && off <= |d|
    ensures |e| == |d| && HeaderAt(e, 1) == HeaderAt(d, 1) && RestAt(e, 1) == RestAt(d, 1)
    ensures Slice(e, at, size) == Slice(d, at, size)
  {
    hide Slice;
    TornLength(d, e, off, n);
    TornSlice(d, e, off, n, SECTOR, HEADER_BYTES);
    TornSlice(d, e, off, n, SECTOR + HEADER_BYTES, REST);
    TornSlice(d, e, off, n, at, size);
  }

  /** What a table of more than 32 sectors loses to the backup header behind it, and the header's octets there. */
  function Overlap(plan: Plan): (k: nat)
    requires plan.Grow?
    ensures k <= HEADER_BYTES && (k > 0 ==> 32 * SECTOR + k <= |plan.table|)
  {
    if |plan.table| <= 32 * SECTOR then 0
    else if |plan.table| - 32 * SECTOR < HEADER_BYTES then |plan.table| - 32 * SECTOR
    else HEADER_BYTES
  }

  /** The backup array fits on the disk, and the header written over its end, if any, is not noticed. */
  predicate TableKept(d: seq<octet>, plan: Plan)
    requires plan.Grow? && |d| >= MIN_DISK
  {
    && (Sectors(d) - 33) * SECTOR + |plan.table| <= |d|
    && var k := Overlap(plan);
      k > 0 ==> Congruent(Slice(plan.table, 32 * SECTOR, k), plan.backup[..k])
  }

  /** Tables of up to 32 sectors, which is what the 33 sectors at the end are for, are kept. */
  lemma ShortTableKept(d: seq<octet>, plan: Plan)
    requires plan.Grow? && |d| >= MIN_DISK && |plan.table| <= 32 * SECTOR
    ensures TableKept(d, plan)
  {
  }

  lemma TableCutUp(t: seq<octet>, at: nat, h: Header, k: nat)
    requires at + k <= |t| && k <= HEADER_BYTES
    ensures t == t[..at] + Slice(t, at, k) + t[at + k..]
    ensures Patch(t, at, h[..k]) == t[..at] + h[..k] + t[at + k..]
  {
  }

  lemma TableSum(plan: Plan)
    requires plan.Grow?
    ensures var k := Overlap(plan);
      var t := if k == 0 then plan.table else Patch(plan.table, 32 * SECTOR, plan.backup[..k]);
      Checksum(t) == Checksum(plan.table) <==> k == 0 || Congruent(Slice(plan.table, 32 * SECTOR, k), plan.backup[..k])
  {
    hide Checksum;
    hide Congruent;
    var k, t := Overlap(plan), plan.table;
    if k > 0 {
      TableCutUp(t, 32 * SECTOR, plan.backup, k);
      SumsAgree(t[..32 * SECTOR], Slice(t, 32 * SECTOR, k), plan.backup[..k], t[32 * SECTOR + k..]);
    }
  }

  /** The backup array on the finished disk, if it fits. */
  lemma BackupArray(d: seq<octet>, plan: Plan)
    requires plan.Grow? && |d| >= MIN_DISK && plan.tableOff + |plan.table| <= |d| && plan.table != []
    requires (Sectors(d) - 33) * SECTOR + |plan.table| <= |d|
    ensures var k := Overlap(plan);
      Slice(Finished(d, plan), (Sectors(d) - 33) * SECTOR, |plan.table|)
        == if k == 0 then plan.table else Patch(plan.table, 32 * SECTOR, plan.backup[..k])
  {
    hide PrimaryDone;
    hide Written;
    hide Patch;
    hide Slice;
    hide Accepted;
    var off := (Sectors(d) - 33) * SECTOR;
    FullWrite(PrimaryDone(d, plan), off, plan.table, |d|);
    PatchInside(PrimaryDone(d, plan), off, plan.table, plan.backup, Overlap(plan));
  }

  lemma PatchInside(d: seq<octet>, off: nat, t: seq<octet>, h: Header, k: nat)
    requires off + |t| <= |d| && off + 32 * SECTOR + HEADER_BYTES <= |d|
    requires k == if |t| <= 32 * SECTOR then 0
                  else if |t| - 32 * SECTOR < HEADER_BYTES then |t| - 32 * SECTOR else HEADER_BYTES
    ensures Slice(Patch(Patch(d, off, t), off + 32 * SECTOR, h), off, |t|)
         == if k == 0 then t else Patch(t, 32 * SECTOR, h[..k])
  {
    var e := Patch(Patch(d, off, t), off + 32 * SECTOR, h);
    var r := if k == 0 then t else Patch(t, 32 * SECTOR, h[..k]);
    forall i | 0 <= i < |t| ensures e[off + i] == r[i] {
    }
  }

  /** The backup header on the finished disk, and the rest of its sector. */
  lemma BackupHeader(d: seq<octet>, index: nat, m: Memory)
    requires Grows(d, index, m)
    ensures var plan, n := PlanFor(d, index, m), Sectors(d);
      && plan.tableOff + |plan.table| <= |d|
      && var e := Finished(d, plan);
        && HeaderAt(e, n - 1) == plan.backup && RestAt(e, n - 1) == RestAt(TableTwice(d, plan), n - 1)
        && (|plan.table| <= 32 * SECTOR ==> RestAt(e, n - 1) == RestAt(d, n - 1))
  {
    hide Get;
    hide Slice;
    hide Patch;
    hide Torn;
    hide SummedOver;
    hide Signed;
    hide Checksum;
    hide PlanFor;
    hide Written;
    var plan, n := PlanFor(d, index, m), Sectors(d);
    PlannedHeaders(d, index, m);
    var d1, d2, d3 := Patch(d, plan.tableOff, plan.table), PrimaryDone(d, plan), TableTwice(d, plan);
    var e, at := Finished(d, plan), (n - 1) * SECTOR + HEADER_BYTES;
    PatchTorn(d, plan.tableOff, plan.table);
    PatchTorn(d1, SECTOR, plan.primary);
    WrittenTorn(d2, (n - 33) * SECTOR, plan.table, |d|);
    PatchTorn(d3, (n - 1) * SECTOR, plan.backup);
    TornSlice(d3, e, (n - 1) * SECTOR, HEADER_BYTES, at, REST);
    if |plan.table| <= 32 * SECTOR {
      TornSlice(d, d1, plan.tableOff, |plan.table|, at, REST);
      TornSlice(d1, d2, SECTOR, HEADER_BYTES, at, REST);
      TornSlice(d2, d3, (n - 33) * SECTOR, |plan.table|, at, REST);
    }
  }

  /** The backup pair, for tables of any length: it verifies exactly if its memory was harmless and its table is kept. */
  lemma FinishedBackup(d: seq<octet>, index: nat, m: Memory)
    requires Grows(d, index, m)
    ensures var plan, n := PlanFor(d, index, m), Sectors(d);
      && plan.tableOff + |plan.table| <= |d|
      && (ValidPair(Finished(d, plan), n - 1) <==>
            TableKept(d, plan) && Harmless(PrimaryHeader(d), m.backup, RestAt(TableTwice(d, plan), n - 1)))
  {
    hide Get;
    hide Slice;
    hide Patch;
    hide Verified;
    hide Harmless;
    hide Congruent;
    hide SummedOver;
    hide Signed;
    hide Checksum;
    hide PlanFor;
    hide Finished;
    hide TableTwice;
    var plan, n := PlanFor(d, index, m), Sectors(d);
    PlannedHeaders(d, index, m);
    TableNotEmpty(d, index, m);
    BackupHeader(d, index, m);
    VerifiedExactlyIf(PrimaryHeader(d), plan.backup, m.backup, RestAt(TableTwice(d, plan), n - 1), n - 1);
    TableSum(plan);
    if (n - 33) * SECTOR + |plan.table| <= |d| {
      BackupArray(d, plan);
    }
  }

  /**
   Both pairs then verify and carry the same table, each exactly if the memory behind its header was
   harmless; and running the code again does nothing.
   */
  lemma FinishedStable(d: seq<octet>, index: nat, m: Memory, later: Memory)
    requires Grows(d, index, m) && Covered(d, later)
    ensures var plan, n := PlanFor(d, index, m), Sectors(d);
      && plan.tableOff + |plan.table| <= |d|
      && var e := Finished(d, plan);
        && (ValidPair(e, 1) <==> PrimarySound(d, m)) && Slice(e, plan.tableOff, |plan.table|) == plan.table
        && (|plan.table| <= 32 * SECTOR ==>
              && (ValidPair(e, n - 1) <==> BackupSound(d, m))
              && Slice(e, (n - 33) * SECTOR, |plan.table|) == plan.table)
        && Covered(e, later) && PlanFor(e, index, later) == Nothing
  {
    hide Get;
    hide Slice;
    hide ValidPair;
    hide Harmless;
    hide SummedOver;
    hide Signed;
    hide Checksum;
    hide PlanFor;
    hide Finished;
    hide TableTwice;
    hide TableKept;
    var plan := PlanFor(d, index, m);
    PlannedHeaders(d, index, m);
    TableNotEmpty(d, index, m);
    FinishedPrimary(d, index, m);
    FinishedBackup(d, index, m);
    BackupHeader(d, index, m);
    if |plan.table| <= 32 * SECTOR {
      ShortTableKept(d, plan);
      BackupArray(d, plan);
    }
    SecondRun(d, index, Finished(d, plan), m, later);
  }

  /** A table that does not fit between its place and the end of the disk loses the backup pair. */
  lemma LongTableLosesBackup(d: seq<octet>, index: nat, m: Memory)
    requires Grows(d, index, m) && (Sectors(d) - 33) * SECTOR + ArrayBytes(PrimaryHeader(d)) > |d|
    ensures var plan := PlanFor(d, index, m);
      plan.tableOff + |plan.table| <= |d| && !ValidPair(Finished(d, plan), Sectors(d) - 1)
  {
    hide Get;
    hide Slice;
    hide ValidPair;
    hide Harmless;
    hide SummedOver;
    hide Signed;
    hide Checksum;
    hide PlanFor;
    hide Finished;
    hide TableTwice;
    PlannedHeaders(d, index, m);
    FinishedBackup(d, index, m);
  }

  /**
   The pair that the old header points to, away from the sectors at the new end, verifies after every
   run, whatever the device takes and whatever lies in memory.
   */
  lemma OldBackupStays(d: seq<octet>, index: nat, alt: nat, limits: seq<nat>, m: Memory)
    requires Grows(d, index, m) && OldBackup(d, alt) && |limits| == 4
    requires var b, n := HeaderAt(d, alt), Sectors(d);
      && alt < n - 33 && Get(b, EntryLba) * SECTOR + ArrayBytes(b) <= (n - 33) * SECTOR
    ensures ValidPair(Performed(d, PlanFor(d, index, m), limits), alt)
  {
    hide Get;
    hide Slice;
    hide Torn;
    hide Checksum;
    hide Signed;
    hide SummedOver;
    hide ValidPair;
    hide PlanFor;
    hide Written;
    hide Accepted;
    var plan, n := PlanFor(d, index, m), Sectors(d);
    PlannedHeaders(d, index, m);
    var d1 := Written(d, plan.tableOff, plan.table, limits[0]);
    var d2 := Written(d1, SECTOR, plan.primary, limits[1]);
    var d3 := Written(d2, (n - 33) * SECTOR, plan.table, limits[2]);
    var d4 := Written(d3, (n - 1) * SECTOR, plan.backup, limits[3]);
    WrittenTorn(d, plan.tableOff, plan.table, limits[0]);
    WrittenTorn(d1, SECTOR, plan.primary, limits[1]);
    WrittenTorn(d2, (n - 33) * SECTOR, plan.table, limits[2]);
    WrittenTorn(d3, (n - 1) * SECTOR, plan.backup, limits[3]);
    PairFrame(d, d1, alt, plan.tableOff, |plan.table|);
    PairFrame(d1, d2, alt, SECTOR, HEADER_BYTES);
    PairFrame(d2, d3, alt, (n - 33) * SECTOR, |plan.table|);
    PairFrame(d3, d4, alt, (n - 1) * SECTOR, HEADER_BYTES);
  }

  // ---------- The next growth ----------

  lemma SliceExtend(d: seq<octet>, more: seq<octet>, off: nat, n: nat)
    requires off + n <= |d|
    ensures Slice(d + more, off, n) == Slice(d, off, n)
  {
  }

  lemma PairExtend(d: seq<octet>, more: seq<octet>, lba: nat)
    requires ValidPair(d, lba)
    ensures ValidPair(d + more, lba) && HeaderAt(d + more, lba) == HeaderAt(d, lba)
  {
    hide Get;
    hide Slice;
    hide Verified;
    hide Checksum;
    var h := HeaderAt(d, lba);
    SliceExtend(d, more, lba * SECTOR, HEADER_BYTES);
    SliceExtend(d, more, lba * SECTOR + HEADER_BYTES, REST);
    SliceExtend(d, more, Get(h, EntryLba) * SECTOR, ArrayBytes(h));
  }

  /** The grown table is ready to grow again: its entry is used, and none ends beyond it. */
  lemma GrownTable(a: seq<octet>, size: nat, count: nat, index: nat, last: nat)
    requires index < count && forall i: nat | i < count :: InArray(a, size, i)
    requires Used(a, size, index) && !OtherBeyond(a, size, count, index) && Last(a, size, index) <= last < TWO64
    ensures var t := SetLast(a, size, index, last);
      && (forall i: nat | i < count :: InArray(t, size, i))
      && Used(t, size, index) && !OtherBeyond(t, size, count, index) && Last(t, size, index) == last
  {
    hide SetLast;
    hide Used;
    hide Last;
    hide InArray;
    var t := SetLast(a, size, index, last);
    SameArray(a, t, size, count);
    forall i: nat | i < count
      ensures Used(t, size, i) == Used(a, size, i) && Last(t, size, i) == if i == index then last else Last(a, size, i)
    {
      SetLastEntries(a, size, index, last, i);
    }
  }

  lemma GrowsOnceMore(d: seq<octet>, index: nat, e: seq<octet>, m: Memory, later: Memory)
    requires Grows(d, index, m) && Covered(d, later) && |e| < TWO64 && |e| >= |d| + MIN_GROWTH * SECTOR
    requires var plan := PlanFor(d, index, m);
      && Slice(e, SECTOR, HEADER_BYTES) == plan.primary
      && plan.tableOff + |plan.table| <= |d| && Slice(e, plan.tableOff, |plan.table|) == plan.table
    ensures Grows(e, index, later) && PrimaryHeader(e) == PlanFor(d, index, m).primary
  {
    hide Get;
    hide Slice;
    hide Signed;
    hide SummedOver;
    hide PrimaryFor;
    hide BackupFor;
    hide Used;
    hide Last;
    hide SetLast;
    hide OtherBeyond;
    hide InArray;
    PlannedHeaders(d, index, m);
    var h, plan := PrimaryHeader(d), PlanFor(d, index, m);
    var a, size := PrimaryArray(d, index), Get(h, EntrySize);
    GrownTable(a, size, Get(h, EntryCount), index, NewLast(d));
    assert PrimaryHeader(e) == plan.primary;
    assert Readable(e, index);
    assert PrimaryArray(e, index) == plan.table;
  }

  /** A header of the same size as h is harmless where h is. */
  lemma SameHarm(h: Header, p: Header, behind: seq<octet>, rest: seq<octet>)
    requires Get(p, HeaderSize) == Get(h, HeaderSize) <= HEADER_BYTES + |behind| && |rest| == REST
    ensures Harmless(p, behind, rest) == Harmless(h, behind, rest)
  {
    hide Get;
    hide Congruent;
  }

  /**
   What makes a growth safe is left behind by the growth before: a grown disk copied to a larger one
   can be grown again, at the next boot with other memory, and has the old backup that the next growth
   falls back on, away from its last 33 sectors.
   */
  lemma LargerDisk(d: seq<octet>, index: nat, more: seq<octet>, m: Memory, later: Memory)
    requires Grows(d, index, m) && PrimarySound(d, m) && BackupSound(d, m) && Covered(d, later)
    requires ArrayBytes(PrimaryHeader(d)) <= 32 * SECTOR
    requires |d| + |more| < TWO64 && |more| >= MIN_GROWTH * SECTOR
    ensures var plan, n := PlanFor(d, index, m), Sectors(d);
      && plan.tableOff + |plan.table| <= |d|
      && var e := Finished(d, plan) + more;
        && Grows(e, index, later) && (PrimarySound(e, later) <==> PrimarySound(d, later))
        && ValidPair(e, 1) && OldBackup(e, n - 1) && n - 1 < Sectors(e) - 33
        && var b := HeaderAt(e, n - 1); Get(b, EntryLba) * SECTOR + ArrayBytes(b) <= (Sectors(e) - 33) * SECTOR
  {
    hide Get;
    hide Slice;
    hide ValidPair;
    hide Harmless;
    hide SummedOver;
    hide Signed;
    hide Checksum;
    hide PlanFor;
    hide Finished;
    var plan, n := PlanFor(d, index, m), Sectors(d);
    PlannedHeaders(d, index, m);
    FinishedStable(d, index, m, later);
    FinishedPrimary(d, index, m);
    BackupHeader(d, index, m);
    var f := Finished(d, plan);
    PairExtend(f, more, 1);
    PairExtend(f, more, n - 1);
    SliceExtend(f, more, SECTOR, HEADER_BYTES);
    SliceExtend(f, more, SECTOR + HEADER_BYTES, REST);
    SliceExtend(f, more, plan.tableOff, |plan.table|);
    GrowsOnceMore(d, index, f + more, m, later);
    SameHarm(PrimaryHeader(d), plan.primary, later.primary, RestAt(d, 1));
  }

  // ---------- Headers longer than the structure ----------

  /** As far as the disk can be told from the memory: up to four octets, or any number within 32 bits. */
  lemma SoundIfEqual(h: Header, behind: seq<octet>, rest: seq<octet>, from: nat)
    requires |rest| == REST && Get(h, HeaderSize) <= HEADER_BYTES + |behind| && Get(h, HeaderSize) <= SECTOR
    requires Get(h, HeaderSize) <= HEADER_BYTES + 4 || WithinBurst(Tail(h, behind), Tail(h, rest), from)
    ensures Harmless(h, behind, rest) <==> Tail(h, behind) == Tail(h, rest)
  {
    hide Get;
    hide Congruent;
    hide WithinBurst;
    if Get(h, HeaderSize) <= HEADER_BYTES + 4 {
      CongruentFour(Tail(h, behind), Tail(h, rest));
    } else {
      CongruentBurst(Tail(h, behind), Tail(h, rest), from);
    }
  }

  /**
   After a run that the device takes in full, a header whose stored size is above 92 octets checks out
   exactly if the memory behind it holds what its sector holds: for sizes up to 96, and for any size
   up to the sector if the two differ within 32 consecutive bits. A size above the sector never does.
   */
  lemma LongHeader(d: seq<octet>, index: nat, limits: seq<nat>, m: Memory, from: nat)
    requires Grows(d, index, m) && |limits| == 4 && forall i | 0 <= i < 4 :: limits[i] >= |d|
    ensures var h, n, e := PrimaryHeader(d), Sectors(d), Performed(d, PlanFor(d, index, m), limits);
      if Get(h, HeaderSize) > SECTOR then !ValidPair(e, 1) && !ValidPair(e, n - 1)
      else
        && (Get(h, HeaderSize) <= HEADER_BYTES + 4 || WithinBurst(Tail(h, m.primary), Tail(h, RestAt(d, 1)), from) ==>
              (ValidPair(e, 1) <==> Tail(h, m.primary) == Tail(h, RestAt(d, 1))))
        && (ArrayBytes(h) <= 32 * SECTOR
            && (Get(h, HeaderSize) <= HEADER_BYTES + 4
                || WithinBurst(Tail(h, m.backup), Tail(h, RestAt(d, n - 1)), from)) ==>
              (ValidPair(e, n - 1) <==> Tail(h, m.backup) == Tail(h, RestAt(d, n - 1))))
  {
    hide Get;
    hide Slice;
    hide ValidPair;
    hide Congruent;
    hide SummedOver;
    hide Signed;
    hide Checksum;
    hide PlanFor;
    hide Finished;
    hide WithinBurst;
    hide Performed;
    hide Tail;
    hide TableTwice;
    hide TableKept;
    var h, n := PrimaryHeader(d), Sectors(d);
    PlannedHeaders(d, index, m);
    FullRunFinishes(d, index, limits, m);
    FinishedStable(d, index, m, m);
    FinishedBackup(d, index, m);
    if Get(h, HeaderSize) <= SECTOR {
      if Get(h, HeaderSize) <= HEADER_BYTES + 4 || WithinBurst(Tail(h, m.primary), Tail(h, RestAt(d, 1)), from) {
        SoundIfEqual(h, m.primary, RestAt(d, 1), from);
      }
      if Get(h, HeaderSize) <= HEADER_BYTES + 4 || WithinBurst(Tail(h, m.backup), Tail(h, RestAt(d, n - 1)), from) {
        SoundIfEqual(h, m.backup, RestAt(d, n - 1), from);
      }
    }
  }

  // ---------- Disks ----------

  function Zeros(n: nat): (z: seq<octet>)
    ensures |z| == n
  {
    seq(n, _ => 0)
  }

  lemma {:induction false} NumZeros(n: nat)
    ensures Num(Zeros(n)) == 0
  {
    if n > 0 {
      NumZeros(n - 1);
      assert Zeros(n)[1..] == Zeros(n - 1);
    }
  }

  lemma SmallHeader(size: nat) returns (h: Header)
    requires size <= SECTOR
    ensures Signed(h) && Get(h, HeaderSize) == size && Get(h, MyLba) == 1 && Get(h, EntryLba) == 2
    ensures Get(h, EntryCount) == 1 && Get(h, EntrySize) == ENTRY_BYTES
  {
    hide Get;
    hide Set;
    hide Signed;
    Powers();
    var h0: Header := SIGNATURE + Zeros(84);
    assert Signed(h0) by { SignedPrefix(Zeros(84)); }
    var h1 := Set(h0, HeaderSize, size);
    var h2 := Set(h1, MyLba, 1);
    var h3 := Set(h2, EntryLba, 2);
    var h4 := Set(h3, EntryCount, 1);
    h := Set(h4, EntrySize, ENTRY_BYTES);
    SignedSet(h0, HeaderSize, size);
    SignedSet(h1, MyLba, 1);
    SignedSet(h2, EntryLba, 2);
    SignedSet(h3, EntryCount, 1);
    SignedSet(h4, EntrySize, ENTRY_BYTES);
    forall f ensures f == EntrySize ==> Get(h, f) == ENTRY_BYTES
             ensures f != EntrySize ==> Get(h, f) == Get(h4, f) {
      GetSet(h4, EntrySize, ENTRY_BYTES, f);
    }
    forall f ensures Get(h4, f) == if f == EntryCount then 1 else Get(h3, f) {
      GetSet(h3, EntryCount, 1, f);
    }
    forall f ensures Get(h3, f) == if f == EntryLba then 2 else if f == MyLba then 1 else Get(h1, f) {
      GetSet(h2, EntryLba, 2, f);
      GetSet(h1, MyLba, 1, f);
    }
    GetSet(h0, HeaderSize, size, HeaderSize);
  }

  lemma SignedPrefix(rest: seq<octet>)
    requires |rest| == 84
    ensures Signed(SIGNATURE + rest)
  {
  }

  /** There are disks that the code grows: one used entry at the start of a disk of 4 MiB, for example. */
  lemma GrowableDisk(size: nat, m: Memory) returns (d: seq<octet>)
    requires size <= SECTOR && size <= HEADER_BYTES + |m.primary| && size <= HEADER_BYTES + |m.backup|
    ensures Grows(d, 0, m) && Get(PrimaryHeader(d), HeaderSize) == size && ArrayBytes(PrimaryHeader(d)) == ENTRY_BYTES
    ensures |d| <= 5 * MIN_DISK && RestAt(d, 1) == Zeros(REST) && RestAt(d, Sectors(d) - 1) == Zeros(REST)
  {
    hide Get;
    hide Signed;
    hide PrimaryFor;
    hide BackupFor;
    hide Num;
    var h := SmallHeader(size);
    var a: seq<octet> := seq(16, _ => 1) + Zeros(112);
    d := Zeros(SECTOR) + h + Zeros(REST) + a + Zeros(4 * MIN_DISK);
    assert PrimaryHeader(d) == h;
    assert Slice(d, 2 * SECTOR, ENTRY_BYTES) == a;
    assert ArrayBytes(h) == ENTRY_BYTES;
    assert Readable(d, 0);
    assert PrimaryArray(d, 0) == a;
    assert Slice(a, 0, 16)[0] == 1 && seq(16, _ => 0)[0] == 0;
    assert Used(a, ENTRY_BYTES, 0);
    assert Slice(a, 40, 8) == Zeros(8);
    NumZeros(8);
    assert Last(a, ENTRY_BYTES, 0) == 0;
  }

  /** A stored size of 93, and one octet of memory that is not the one on the disk: no new pair verifies. */
  lemma NeitherPairVerifies(m: Memory, limits: seq<nat>) returns (d: seq<octet>)
    requires m.primary != [] && m.backup != [] && m.primary[0] != 0 && m.backup[0] != 0
    requires |limits| == 4 && forall i | 0 <= i < 4 :: limits[i] >= 5 * MIN_DISK
    ensures Grows(d, 0, m) && Get(PrimaryHeader(d), HeaderSize) == 93
    ensures var e := Performed(d, PlanFor(d, 0, m), limits); !ValidPair(e, 1) && !ValidPair(e, Sectors(d) - 1)
  {
    hide Get;
    hide Slice;
    hide ValidPair;
    hide Performed;
    hide PlanFor;
    d := GrowableDisk(93, m);
    var h := PrimaryHeader(d);
    assert Tail(h, m.primary)[0] == m.primary[0] && Tail(h, m.backup)[0] == m.backup[0];
    assert Tail(h, RestAt(d, 1)) == [0] == Tail(h, RestAt(d, Sectors(d) - 1));
    LongHeader(d, 0, limits, m, 0);
  }

  /** From 97 octets on memory may differ from the disk and still go unnoticed. */
  lemma DifferentButSound(m: Memory) returns (d: seq<octet>)
    requires |m.primary| >= 5 && |m.backup| >= 5 && m.primary[..5] == [0x41, 0x06, 0x71, 0xDB, 0x01]
    ensures Grows(d, 0, m) && Get(PrimaryHeader(d), HeaderSize) == 97 && PrimarySound(d, m)
    ensures Tail(PrimaryHeader(d), m.primary) != Tail(PrimaryHeader(d), RestAt(d, 1))
  {
    hide Get;
    hide Slice;
    hide PlanFor;
    hide Congruent;
    d := GrowableDisk(97, m);
    var h := PrimaryHeader(d);
    assert Tail(h, RestAt(d, 1)) == [0, 0, 0, 0, 0];
    assert Tail(h, m.primary)[0] == 0x41;
    CongruentFive();
  }
}
