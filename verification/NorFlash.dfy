// The serial NOR device of the XCORE board and its driver: page programming with polling, sector
// erase and erase verification, refined to plain bitwise-AND writes and 0xFF fills on a flat array.
module NorFlash {

  type byte = bv8

  const FLASH_SIZE: nat := 0x100_0000
  const PAGE_SIZE: nat := 256
  const SECTOR_SIZE: nat := 4096
  const POLL_LIMIT: nat := 100

  // ---- Flat meaning of the commands ----

  function And(a: byte, b: byte): byte { a & b }

  // Programming only clears bits: every addressed byte becomes old AND new.
  function Programmed(mem: seq<byte>, offset: nat, data: seq<byte>): (r: seq<byte>)
    requires offset + |data| <= |mem|
    ensures |r| == |mem|
  {
    seq(|mem|, i requires 0 <= i < |mem| =>
      if offset <= i < offset + |data| then And(mem[i], data[i - offset]) else mem[i])
  }

  // Erasing sets every byte of the sector.
  function Erased(mem: seq<byte>, start: nat): (r: seq<byte>)
    requires start + SECTOR_SIZE <= |mem|
    ensures |r| == |mem|
  {
    seq(|mem|, i requires 0 <= i < |mem| => if start <= i < start + SECTOR_SIZE then 0xFF else mem[i])
  }

  // Programming can only clear bits: the data reads back exactly if no bit of it would have to be set.
  lemma ProgramReadsBackIff(mem: seq<byte>, offset: nat, data: seq<byte>)
    requires offset + |data| <= |mem|
    ensures Programmed(mem, offset, data)[offset..offset + |data|] == data <==>
      forall i :: 0 <= i < |data| ==> data[i] & !mem[offset + i] == 0
    ensures forall i :: 0 <= i < |data| ==> Programmed(mem, offset, data)[offset + i] == mem[offset + i] & data[i]
    ensures Programmed(mem, offset, data)[..offset] == mem[..offset]
    ensures Programmed(mem, offset, data)[offset + |data|..] == mem[offset + |data|..]
  {
    forall i | 0 <= i < |data|
      ensures Programmed(mem, offset, data)[offset + i] == mem[offset + i] & data[i]
      ensures Programmed(mem, offset, data)[offset + i] == data[i] <==> data[i] & !mem[offset + i] == 0
    {
      AndClears(mem[offset + i], data[i]);
      ProgrammedByte(mem, offset, data, i);
    }
    hide And, Programmed;
    SameAt(Programmed(mem, offset, data), offset, data);
    ProgrammedElsewhere(mem, offset, data);
  }

  lemma ProgrammedByte(mem: seq<byte>, offset: nat, data: seq<byte>, i: nat)
    requires offset + |data| <= |mem| && i < |data|
    ensures Programmed(mem, offset, data)[offset + i] == And(mem[offset + i], data[i])
  {
    hide And;
  }

  lemma ProgrammedElsewhere(mem: seq<byte>, offset: nat, data: seq<byte>)
    requires offset + |data| <= |mem|
    ensures Programmed(mem, offset, data)[..offset] == mem[..offset]
    ensures Programmed(mem, offset, data)[offset + |data|..] == mem[offset + |data|..]
  {
    hide And;
  }

  lemma SameAt(mem: seq<byte>, offset: nat, data: seq<byte>)
    requires offset + |data| <= |mem|
    ensures mem[offset..offset + |data|] == data <==> forall i :: 0 <= i < |data| ==> mem[offset + i] == data[i]
  {
    var part := mem[offset..offset + |data|];
    if part == data {
      forall i | 0 <= i < |data| ensures mem[offset + i] == data[i] {
        assert part[i] == data[i];
      }
    }
  }

  lemma AndClears(was: byte, b: byte)
    ensures And(was, b) == was & b
    ensures And(was, b) == b <==> b & !was == 0
  {
  }

  lemma ProgrammedAppend(mem: seq<byte>, offset: nat, a: seq<byte>, b: seq<byte>)
    requires offset + |a| + |b| <= |mem|
    ensures Programmed(Programmed(mem, offset, a), offset + |a|, b) == Programmed(mem, offset, a + b)
  {
    hide And;
  }

  // ---- The device ----

  // The address after `addr` inside its page: the device's column counter wraps.
  function NextInPage(addr: nat): nat {
    if addr % PAGE_SIZE == PAGE_SIZE - 1 then addr - (PAGE_SIZE - 1) else addr + 1
  }

  // What the device's page buffer does with the data of one page program command.
  function ProgramPage(mem: seq<byte>, addr: nat, data: seq<byte>): (r: seq<byte>)
    requires |mem| == FLASH_SIZE && addr < FLASH_SIZE
    ensures |r| == |mem|
    decreases |data|
  {
    if data == [] then mem
    else ProgramPage(mem[addr := And(mem[addr], data[0])], NextInPage(addr), data[1..])
  }

  // Data that stays inside its page is programmed in place.
  lemma {:induction false} ProgramPageInPlace(mem: seq<byte>, addr: nat, data: seq<byte>)
    requires |mem| == FLASH_SIZE && addr < FLASH_SIZE && addr % PAGE_SIZE + |data| <= PAGE_SIZE
    requires addr + |data| <= FLASH_SIZE
    ensures ProgramPage(mem, addr, data) == Programmed(mem, addr, data)
    decreases |data|
  {
    hide And;
    if data == [] {
      assert Programmed(mem, addr, data) == mem;
    } else if |data| == 1 {
      assert data[1..] == [];
      assert Programmed(mem, addr, data) == mem[addr := And(mem[addr], data[0])];
    } else {
      var mem' := mem[addr := And(mem[addr], data[0])];
      assert (addr + 1) % PAGE_SIZE == addr % PAGE_SIZE + 1;
      ProgramPageInPlace(mem', addr + 1, data[1..]);
      assert Programmed(mem', addr + 1, data[1..]) == Programmed(mem, addr, data);
    }
  }

  datatype Operation = Nothing | PageProgram(addr: nat, data: seq<byte>) | SectorErase(start: nat)

  ghost predicate InRange(op: Operation) {
    match op
    case Nothing => true
    case PageProgram(addr, data) => addr < FLASH_SIZE
    case SectorErase(start) => start + SECTOR_SIZE <= FLASH_SIZE
  }

  function Complete(mem: seq<byte>, op: Operation): (r: seq<byte>)
    requires |mem| == FLASH_SIZE && InRange(op)
    ensures |r| == |mem|
  {
    match op
    case Nothing => mem
    case PageProgram(addr, data) => ProgramPage(mem, addr, data)
    case SectorErase(start) => Erased(mem, start)
  }

  class NorDevice {
    var mem: seq<byte>
    var writeEnabled: bool
    var busy: nat              // status reads that will still report the busy flag
    var running: Operation     // takes effect when the busy flag clears
    const programTime: nat     // status reads that a page program takes at most

    ghost predicate Valid()
      reads this
    {
      |mem| == FLASH_SIZE && InRange(running) && (busy == 0 <==> running == Nothing) && programTime > 0
    }

    ghost predicate Idle()
      reads this
    {
      Valid() && busy == 0
    }

    // The contents once the running operation is over.
    ghost function Settled(): (r: seq<byte>)
      reads this
      requires Valid()
      ensures |r| == FLASH_SIZE && (busy == 0 ==> r == mem)
    {
      Complete(mem, running)
    }

    constructor (contents: seq<byte>, programTime: nat)
      requires |contents| == FLASH_SIZE && programTime > 0
      ensures Idle() && mem == contents && !writeEnabled && this.programTime == programTime
    {
      this.programTime := programTime;
      mem, writeEnabled, busy, running := contents, false, 0, Nothing;
    }

    method WriteEnable()
      requires Valid()
      modifies this`writeEnabled
      ensures writeEnabled == (old(writeEnabled) || busy == 0)
    {
      if busy == 0 {
        writeEnabled := true;
      }
    }

    // A program or erase command: ignored while busy or without write enable; otherwise it runs
    // for an unknown number of status reads, at least one.
    method Start(op: Operation)
      requires Valid() && op != Nothing && InRange(op)
      modifies this
      ensures Valid() && mem == old(mem)
      ensures old(busy == 0 && writeEnabled) ==>
        busy > 0 && running == op && !writeEnabled && (op.PageProgram? ==> busy <= programTime)
      ensures old(busy > 0 || !writeEnabled) ==>
        busy == old(busy) && running == old(running) && writeEnabled == old(writeEnabled)
    {
      if busy == 0 && writeEnabled {
        assert 0 < programTime <= programTime;
        var duration: nat :| 0 < duration && (op.PageProgram? ==> duration <= programTime);
        busy, running, writeEnabled := duration, op, false;
      }
    }

    method ReadStatus() returns (busyFlag: bool)
      requires Valid()
      modifies this`mem, this`busy, this`running
      ensures Valid() && busyFlag == (old(busy) > 0)
      ensures Settled() == old(Settled())
      ensures busy == if old(busy) > 0 then old(busy) - 1 else 0
      ensures busy > 0 ==> mem == old(mem) && running == old(running)
    {
      busyFlag := busy > 0;
      if busy > 0 {
        busy := busy - 1;
        if busy == 0 {
          mem, running := Complete(mem, running), Nothing;
        }
      }
    }

    // While busy the device drives arbitrary data.
    method Read(addr: nat, n: nat) returns (data: seq<byte>)
      requires Valid() && addr + n <= FLASH_SIZE
      ensures |data| == n
      ensures busy == 0 ==> data == mem[addr..addr + n]
    {
      if busy == 0 {
        return mem[addr..addr + n];
      }
      assert |seq(n, i => 0 as byte)| == n;
      data :| |data| == n;
    }
  }

  // ---- The driver ----

  // n | (2^k - 1), bit by bit.
  function OrOnes(n: nat, k: nat): nat
    decreases k
  {
    if k == 0 then n else 2 * OrOnes(n / 2, k - 1) + 1
  }

  // The page mask has eight bits.
  function PageBits(): nat { 8 }

  lemma FourOnes(n: nat, k: nat)
    ensures OrOnes(n, k + 4) == 16 * OrOnes(n / 16, k) + 15
  {
    assert n / 2 / 2 / 2 / 2 == n / 16;
    assert OrOnes(n, k + 4) == 4 * OrOnes(n / 2 / 2, k + 2) + 3;
    assert OrOnes(n / 2 / 2, k + 2) == 4 * OrOnes(n / 2 / 2 / 2 / 2, k) + 3;
  }

  lemma PageEnd(offset: nat)
    ensures OrOnes(offset, PageBits()) + 1 == (offset / PAGE_SIZE + 1) * PAGE_SIZE
  {
    hide OrOnes;
    FourOnes(offset, 4);
    FourOnes(offset / 16, 0);
    NoOnes(offset / 16 / 16);
    assert offset / 16 / 16 == offset / 256;
  }

  lemma NoOnes(n: nat)
    ensures OrOnes(n, 0) == n
  {
  }

  // Bytes up to the end of the page, or fewer.
  function ChunkSize(offset: nat, n: nat): (chunk: nat)
    ensures chunk <= n && offset % PAGE_SIZE + chunk <= PAGE_SIZE
    ensures n > 0 ==> chunk > 0
    ensures chunk < n ==> (offset + chunk) % PAGE_SIZE == 0
  {
    var toPageEnd := PAGE_SIZE - offset % PAGE_SIZE;
    if toPageEnd > n then n else toPageEnd
  }

  lemma ChunkIs(offset: nat, n: nat)
    ensures OrOnes(offset, PageBits()) + 1 > offset
    ensures ChunkSize(offset, n) ==
      if OrOnes(offset, PageBits()) + 1 - offset > n then n else OrOnes(offset, PageBits()) + 1 - offset
  {
    PageEnd(offset);
  }

  // The size of the next chunk, as the driver computes it.
  method NextChunk(offset: nat, n: nat) returns (chunk: nat)
    requires n > 0
    ensures chunk == ChunkSize(offset, n)
  {
    ChunkIs(offset, n);
    chunk := OrOnes(offset, PageBits()) + 1 - offset;
    if chunk > n {
      chunk := n;
    }
  }

  // Polls at most 100 times: succeeds exactly if the busy flag is seen clear.
  method PollStatus(dev: NorDevice) returns (ok: bool)
    requires dev.Valid()
    modifies dev`mem, dev`busy, dev`running
    ensures dev.Valid() && dev.Settled() == old(dev.Settled())
    ensures ok == (old(dev.busy) < 100)
    ensures ok ==> dev.busy == 0
    ensures !ok ==> dev.busy == old(dev.busy) - 100
    ensures dev.busy > 0 ==> dev.mem == old(dev.mem) && dev.running == old(dev.running)
  {
    var timeout: nat := POLL_LIMIT;
    while true
      invariant dev.Valid() && dev.Settled() == old(dev.Settled())
      invariant 0 < timeout <= POLL_LIMIT
      invariant old(dev.busy) >= POLL_LIMIT - timeout && dev.busy == old(dev.busy) - (POLL_LIMIT - timeout)
      invariant dev.busy > 0 ==> dev.mem == old(dev.mem) && dev.running == old(dev.running)
      decreases timeout
    {
      var busyFlag := dev.ReadStatus();
      if !busyFlag {
        break;
      }
      timeout := timeout - 1;
      if timeout == 0 {
        break;
      }
    }
    ok := timeout > 0;
  }

  // The part of a program call that takes effect: a device still busy from an earlier command
  // ignores the first chunk.
  function Skipped(busy: bool, offset: nat, n: nat): nat {
    if busy then ChunkSize(offset, n) else 0
  }

  // One turn of the program loop: write enable, page program, poll.
  method ProgramChunk(dev: NorDevice, addr: nat, data: seq<byte>) returns (ok: bool)
    requires dev.Valid() && data != [] && addr + |data| <= FLASH_SIZE && addr % PAGE_SIZE + |data| <= PAGE_SIZE
    modifies dev
    ensures dev.Valid() && (ok ==> dev.busy == 0)
    ensures old(dev.busy) > 0 ==> ok == (old(dev.busy) < POLL_LIMIT)
    ensures old(dev.busy) == 0 && dev.programTime < POLL_LIMIT ==> ok
    ensures dev.Settled() ==
      if old(dev.busy) > 0 then old(dev.Settled()) else Programmed(old(dev.mem), addr, data)
    ensures !ok && dev.busy > 0 ==>
      dev.mem == old(dev.mem) && dev.running == if old(dev.busy) > 0 then old(dev.running) else PageProgram(addr, data)
  {
    ProgramPageInPlace(dev.mem, addr, data);
    dev.WriteEnable();
    dev.Start(PageProgram(addr, data));
    ok := PollStatus(dev);
  }

  lemma ProgrammedNothing(mem: seq<byte>, offset: nat)
    requires offset <= |mem|
    ensures Programmed(mem, offset, []) == mem
  {
    hide And;
  }

  lemma ExtendProgrammed(mem: seq<byte>, offset: nat, data: seq<byte>, from: nat, mid: nat, to: nat)
    requires from <= mid <= to <= |data| && offset + |data| <= |mem|
    ensures Programmed(Programmed(mem, offset + from, data[from..mid]), offset + mid, data[mid..to])
         == Programmed(mem, offset + from, data[from..to])
  {
    hide Programmed;
    ProgrammedAppend(mem, offset + from, data[from..mid], data[mid..to]);
    assert data[from..mid] + data[mid..to] == data[from..to];
  }

  // Programs data page by page. On success everything but the skipped chunk is programmed and
  // nothing else touched. On failure `failed` is where the chunk that timed out starts: every
  // chunk before it is programmed, it is still in progress, and no later one was sent. It succeeds if
  // no operation takes longer than the polling, and cannot if one already running does.
  method SnorProgram(dev: NorDevice, offset: nat, data: seq<byte>) returns (ok: bool, ghost failed: nat)
    requires dev.Valid() && offset + |data| <= FLASH_SIZE
    modifies dev
    ensures dev.Valid()
    ensures data == [] ==>
      ok && dev.mem == old(dev.mem) && dev.busy == old(dev.busy) && dev.running == old(dev.running)
    ensures old(dev.busy) < POLL_LIMIT && dev.programTime < POLL_LIMIT ==> ok
    ensures old(dev.busy) > 0 && |data| == ChunkSize(offset, |data|) > 0 ==> ok == (old(dev.busy) < POLL_LIMIT)
    ensures old(dev.busy) >= POLL_LIMIT && data != [] ==> !ok && failed == 0
    ensures ok ==>
      && (data != [] ==> dev.busy == 0)
      && var skip := Skipped(old(dev.busy) > 0, offset, |data|);
         dev.Settled() == Programmed(old(dev.Settled()), offset + skip, data[skip..])
    ensures !ok ==>
      && failed < |data| && (failed == 0 || (offset + failed) % PAGE_SIZE == 0)
      && var sent := failed + ChunkSize(offset + failed, |data| - failed);
         var skip := Skipped(old(dev.busy) > 0, offset, |data|);
      && skip <= sent
      && dev.Settled() == Programmed(old(dev.Settled()), offset + skip, data[skip..sent])
      && (old(dev.busy) == 0 && dev.busy > 0 ==>
            && dev.mem == Programmed(old(dev.mem), offset, data[..failed])
            && dev.running == PageProgram(offset + failed, data[failed..sent]))
  {
    hide Programmed, ProgramPage, OrOnes, ChunkSize, Complete;
    ghost var start := dev.Settled();
    ghost var skip := Skipped(dev.busy > 0, offset, |data|);
    failed := 0;
    var i := 0;
    ProgrammedNothing(start, offset + skip);
    while i < |data|
      invariant 0 <= i <= |data|
      invariant i == 0 || (offset + i) % PAGE_SIZE == 0 || i == |data|
      invariant dev.Valid()
      invariant i == 0 ==> dev.mem == old(dev.mem) && dev.busy == old(dev.busy) && dev.running == old(dev.running)
      invariant i > 0 ==> skip <= i && dev.busy == 0 && old(dev.busy) < POLL_LIMIT
      invariant skip <= i ==> dev.Settled() == Programmed(start, offset + skip, data[skip..i])
      decreases |data| - i
    {
      var chunk := NextChunk(offset + i, |data| - i);
      if skip <= i {
        ExtendProgrammed(start, offset, data, skip, i, i + chunk);
      } else {
        assert data[skip..i + chunk] == [];
      }
      var polled := ProgramChunk(dev, offset + i, data[i..i + chunk]);
      assert skip <= i + chunk && dev.Settled() == Programmed(start, offset + skip, data[skip..i + chunk]);
      if !polled {
        assert data[..i] == data[0..i];
        return false, i;
      }
      i := i + chunk;
    }
    assert data[skip..i] == data[skip..];
    ok := true;
  }

  // A call that skips its first chunk leaves what the caller asked for exactly when that chunk had
  // no bit to clear.
  lemma SkipHarmless(mem: seq<byte>, offset: nat, data: seq<byte>, busy: bool)
    requires offset + |data| <= |mem|
    ensures var skip := Skipped(busy, offset, |data|);
      Programmed(mem, offset + skip, data[skip..]) == Programmed(mem, offset, data)
      <==> !busy || forall i :: 0 <= i < ChunkSize(offset, |data|) ==> And(mem[offset + i], data[i]) == mem[offset + i]
  {
    hide And, ChunkSize, Programmed;
    var skip := Skipped(busy, offset, |data|);
    var got, want := Programmed(mem, offset + skip, data[skip..]), Programmed(mem, offset, data);
    forall i | 0 <= i < |mem|
      ensures got[i] == want[i] <==> !(offset <= i < offset + skip) || And(mem[i], data[i - offset]) == mem[i]
    {
      SkippedByte(mem, offset, data, skip, i);
    }
    if forall i :: 0 <= i < skip ==> And(mem[offset + i], data[i]) == mem[offset + i] {
      assert forall i :: 0 <= i < |mem| ==> got[i] == want[i] by {
        forall i | 0 <= i < |mem| ensures got[i] == want[i] {
          if offset <= i < offset + skip {
            assert And(mem[offset + (i - offset)], data[i - offset]) == mem[offset + (i - offset)];
          }
        }
      }
    } else {
      var i :| 0 <= i < skip && And(mem[offset + i], data[i]) != mem[offset + i];
      assert got[offset + i] != want[offset + i];
    }
  }

  lemma SkippedByte(mem: seq<byte>, offset: nat, data: seq<byte>, skip: nat, i: nat)
    requires skip <= |data| && offset + |data| <= |mem| && i < |mem|
    ensures Programmed(mem, offset + skip, data[skip..])[i] == Programmed(mem, offset, data)[i] <==>
      !(offset <= i < offset + skip) || And(mem[i], data[i - offset]) == mem[i]
  {
    hide And;
  }

  // A skipped byte is lost exactly if it had a bit to clear.
  lemma BusyProgramLosesData(mem: seq<byte>, offset: nat, b: byte)
    requires offset < |mem|
    ensures mem == Programmed(mem, offset, [b]) <==> And(mem[offset], b) == mem[offset]
  {
    hide And;
    var want := Programmed(mem, offset, [b]);
    assert want[offset] == And(mem[offset], b);
    assert forall i :: 0 <= i < |mem| && i != offset ==> want[i] == mem[i];
  }

  // A byte programmed while an earlier operation is still running for up to 99 status reads: the
  // call succeeds, and the flash holds what that operation leaves and nothing else. So the byte is
  // lost unless it had no bit to clear.
  method BusyProgram(dev: NorDevice, offset: nat, b: byte) returns (ok: bool)
    requires dev.Valid() && 0 < dev.busy < POLL_LIMIT && offset < FLASH_SIZE
    modifies dev
    ensures ok && dev.Idle() && dev.mem == old(dev.Settled())
    ensures dev.mem == Programmed(old(dev.Settled()), offset, [b]) <==>
      And(old(dev.Settled())[offset], b) == old(dev.Settled())[offset]
  {
    hide And, Programmed, Complete;
    ghost var failed, settled := 0, dev.Settled();
    ok, failed := SnorProgram(dev, offset, [b]);
    ProgrammedNothing(settled, offset + 1);
    BusyProgramLosesData(settled, offset, b);
    assert [b][1..] == [];
  }

  // ---- Erasing ----

  method SnorStartEraseSector(dev: NorDevice, sector: nat)
    requires dev.Valid() && (sector + 1) * SECTOR_SIZE <= FLASH_SIZE
    modifies dev
    ensures dev.Valid()
    ensures old(dev.busy) == 0 ==>
      dev.busy > 0 && dev.Settled() == Erased(old(dev.mem), sector * SECTOR_SIZE)
    ensures old(dev.busy) > 0 ==> dev.busy == old(dev.busy) && dev.Settled() == old(dev.Settled())
  {
    dev.WriteEnable();
    dev.Start(SectorErase(sector * SECTOR_SIZE));
  }

  method SnorQueryErase(dev: NorDevice) returns (stillErasing: bool)
    requires dev.Valid()
    modifies dev
    ensures dev.Valid() && dev.Settled() == old(dev.Settled())
    ensures stillErasing == (old(dev.busy) > 0)
    ensures dev.busy == if old(dev.busy) > 0 then old(dev.busy) - 1 else 0
  {
    stillErasing := dev.ReadStatus();
  }

  function Pow2(k: nat): nat
    decreases k
  {
    if k == 0 then 1 else 2 * Pow2(k - 1)
  }

  lemma {:induction false} Pow2Product(k: nat, m: nat)
    ensures Pow2(k + m) == Pow2(k) * Pow2(m)
    decreases k
  {
    if k > 0 { Pow2Product(k - 1, m); }
  }

  lemma {:induction false} Pow2Positive(k: nat)
    ensures Pow2(k) > 0
    decreases k
  {
    if k > 0 { Pow2Positive(k - 1); }
  }

  lemma Pow2Large(k: nat)
    requires k > 12
    ensures Pow2(k) > SECTOR_SIZE
  {
    Pow2Product(13, k - 13);
    Pow2Positive(k - 13);
  }

  // A power of two that is no larger than a sector divides it.
  lemma BufferDividesSector(k: nat) returns (quotient: nat)
    requires Pow2(k) <= SECTOR_SIZE
    ensures Pow2(k) > 0 && SECTOR_SIZE == quotient * Pow2(k)
  {
    Pow2Positive(k);
    assert Pow2(12) == SECTOR_SIZE;
    if k > 12 {
      Pow2Large(k);
    }
    Pow2Product(12 - k, k);
    quotient := Pow2(12 - k);
  }

  // Compares a sector with the erased state through a buffer of 2^k bytes; n never underflows and
  // the answer is exact.
  method SnorVerifyErase(dev: NorDevice, sector: nat, k: nat) returns (ok: bool)
    requires dev.Idle() && (sector + 1) * SECTOR_SIZE <= FLASH_SIZE
    requires Pow2(k) <= SECTOR_SIZE
    ensures ok <==>
      forall i :: sector * SECTOR_SIZE <= i < (sector + 1) * SECTOR_SIZE ==> dev.mem[i] == 0xFF
  {
    ghost var left := BufferDividesSector(k);
    var size := Pow2(k);
    var start := sector * SECTOR_SIZE;
    var offset, n: nat := start, SECTOR_SIZE;
    while n > 0
      invariant offset + n == start + SECTOR_SIZE && offset >= start
      invariant n == left * size
      invariant forall i :: start <= i < offset ==> dev.mem[i] == 0xFF
      decreases n
    {
      OneLess(left, size);
      var buffer := dev.Read(offset, size);
      var p := 0;
      while p < size
        invariant 0 <= p <= size
        invariant forall i :: offset <= i < offset + p ==> dev.mem[i] == 0xFF
      {
        if buffer[p] != 0xFF {
          assert dev.mem[offset + p] != 0xFF;
          return false;
        }
        p := p + 1;
      }
      offset := offset + size;
      n := n - size;
      left := left - 1;
    }
    return true;
  }

  lemma OneLess(q: nat, d: nat)
    requires q * d > 0
    ensures q > 0 && (q - 1) * d == q * d - d && q * d >= d
  {
  }
}
