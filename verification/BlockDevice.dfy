// The LittleFS callbacks over the NOR driver, refined to an array of 4096 blocks of 4096 bytes.
module BlockDevice {
  import opened NorFlash

  const BLOCK_SIZE: nat := 4096
  const BLOCK_COUNT: nat := 4096

  type Block = b: seq<byte> | |b| == BLOCK_SIZE witness seq(BLOCK_SIZE, i => 0xFF)
  type Blocks = b: seq<Block> | |b| == BLOCK_COUNT witness seq(BLOCK_COUNT, i => Blank())

  // An erased block.
  function Blank(): Block { seq(BLOCK_SIZE, i => 0xFF) }

  // Callback requests within the geometry that LittleFS was configured with.
  datatype Request =
    | Read(block: nat, off: nat, size: nat)
    | Prog(block: nat, off: nat, data: seq<byte>)
    | Erase(block: nat)

  predicate InBounds(r: Request) {
    r.block < BLOCK_COUNT &&
    match r
    case Read(block, off, size) => off + size <= BLOCK_SIZE
    case Prog(block, off, data) => off + |data| <= BLOCK_SIZE
    case Erase(block) => true
  }

  // ---- The abstract device ----

  function Apply(blocks: Blocks, r: Request): Blocks
    requires InBounds(r)
  {
    match r
    case Read(block, off, size) => blocks
    case Prog(block, off, data) => blocks[block := Programmed(blocks[block], off, data)]
    case Erase(block) => blocks[block := Blank()]
  }

  function ReadBack(blocks: Blocks, r: Request): seq<byte>
    requires InBounds(r)
  {
    match r
    case Read(block, off, size) => blocks[block][off..off + size]
    case _ => []
  }

  function ApplyAll(blocks: Blocks, rs: seq<Request>): Blocks
    requires forall i :: 0 <= i < |rs| ==> InBounds(rs[i])
    decreases |rs|
  {
    if rs == [] then blocks else Apply(ApplyAll(blocks, rs[..|rs| - 1]), rs[|rs| - 1])
  }

  // ---- The flash seen as blocks ----

  function BlockAt(mem: seq<byte>, b: nat): Block
    requires |mem| == FLASH_SIZE && b < BLOCK_COUNT
  {
    mem[b * BLOCK_SIZE..(b + 1) * BLOCK_SIZE]
  }

  function View(mem: seq<byte>): (v: Blocks)
    requires |mem| == FLASH_SIZE
    ensures forall b :: 0 <= b < BLOCK_COUNT ==> v[b] == BlockAt(mem, b)
  {
    seq(BLOCK_COUNT, b requires 0 <= b < BLOCK_COUNT => BlockAt(mem, b))
  }

  // Programming inside one block is programming that block alone.
  lemma ProgramRefines(mem: seq<byte>, block: nat, off: nat, data: seq<byte>)
    requires |mem| == FLASH_SIZE && InBounds(Prog(block, off, data))
    ensures View(Programmed(mem, block * BLOCK_SIZE + off, data)) == Apply(View(mem), Prog(block, off, data))
  {
    hide And, Programmed, BlockAt;
    var mem' := Programmed(mem, block * BLOCK_SIZE + off, data);
    forall b | 0 <= b < BLOCK_COUNT
      ensures View(mem')[b] == Apply(View(mem), Prog(block, off, data))[b]
    {
      ProgramInBlock(mem, block, off, data, b);
    }
  }

  lemma ProgramInBlock(mem: seq<byte>, block: nat, off: nat, data: seq<byte>, b: nat)
    requires |mem| == FLASH_SIZE && InBounds(Prog(block, off, data)) && b < BLOCK_COUNT
    ensures BlockAt(Programmed(mem, block * BLOCK_SIZE + off, data), b) ==
      if b == block then Programmed(BlockAt(mem, b), off, data) else BlockAt(mem, b)
  {
    hide And;
    var mem' := Programmed(mem, block * BLOCK_SIZE + off, data);
    var start, before, after := b * BLOCK_SIZE, BlockAt(mem, b), BlockAt(mem', b);
    forall i | 0 <= i < BLOCK_SIZE
      ensures after[i] == if b == block then Programmed(before, off, data)[i] else before[i]
    {
      assert after[i] == mem'[start + i] && before[i] == mem[start + i];
    }
  }

  lemma EraseRefines(mem: seq<byte>, block: nat)
    requires |mem| == FLASH_SIZE && block < BLOCK_COUNT
    ensures View(Erased(mem, block * SECTOR_SIZE)) == Apply(View(mem), Erase(block))
  {
    var mem' := Erased(mem, block * SECTOR_SIZE);
    forall b | 0 <= b < BLOCK_COUNT
      ensures BlockAt(mem', b) == Apply(View(mem), Erase(block))[b]
    {
      if b == block {
        assert BlockAt(mem', b) == Blank();
      } else {
        assert BlockAt(mem', b) == BlockAt(mem, b);
      }
    }
  }

  // ---- The callbacks ----

  // Reports success even if the device is busy and drives anything.
  method ReadFlash(dev: NorDevice, block: nat, off: nat, size: nat) returns (ok: bool, data: seq<byte>)
    requires dev.Valid() && InBounds(Read(block, off, size))
    ensures ok && |data| == size
    ensures dev.busy == 0 ==> data == dev.mem[block * 4096 + off..block * 4096 + off + size]
    ensures dev.busy == 0 ==> data == ReadBack(View(dev.mem), Read(block, off, size))
  {
    data := dev.Read(block * BLOCK_SIZE + off, size);
    ok := true;
    InBlock(dev.mem, block, off, size);
  }

  lemma InBlock(mem: seq<byte>, block: nat, off: nat, size: nat)
    requires |mem| == FLASH_SIZE && block < BLOCK_COUNT && off + size <= BLOCK_SIZE
    ensures mem[block * BLOCK_SIZE + off..block * BLOCK_SIZE + off + size] == View(mem)[block][off..off + size]
  {
    SliceOfSlice(mem, block * BLOCK_SIZE, (block + 1) * BLOCK_SIZE, off, size);
    assert View(mem)[block] == BlockAt(mem, block);
  }

  lemma SliceOfSlice(s: seq<byte>, from: nat, to: nat, off: nat, size: nat)
    requires from <= to <= |s| && off + size <= to - from
    ensures s[from + off..from + off + size] == s[from..to][off..off + size]
  {
    var whole := s[from..to];
    var a, b := s[from + off..from + off + size], whole[off..off + size];
    forall i | 0 <= i < size ensures a[i] == b[i] {
      assert b[i] == whole[off + i] == s[from + (off + i)];
    }
  }

  // The first `sent` bytes were sent to the device; if it was busy it ignored the first chunk. Only
  // they reach the block and nothing reaches another one. All were sent if the call succeeded.
  method WriteFlash(dev: NorDevice, block: nat, off: nat, data: seq<byte>) returns (ok: bool, ghost sent: nat)
    requires dev.Valid() && InBounds(Prog(block, off, data))
    modifies dev
    ensures dev.Valid()
    ensures var skip := Skipped(old(dev.busy) > 0, block * BLOCK_SIZE + off, |data|);
      && skip <= sent <= |data| && (ok ==> sent == |data|)
      && View(dev.Settled()) == Apply(old(View(dev.Settled())), Prog(block, off + skip, data[skip..sent]))
    ensures data == [] ==> ok && dev.busy == old(dev.busy)
    ensures ok && data != [] ==> dev.Idle()
    ensures ok && old(dev.busy) == 0 ==>
      && dev.Idle() && dev.mem == Programmed(old(dev.mem), block * 4096 + off, data)
      && View(dev.mem) == Apply(old(View(dev.mem)), Prog(block, off, data))
    ensures old(dev.busy) < POLL_LIMIT && dev.programTime < POLL_LIMIT ==> ok
  {
    hide Programmed, View, Complete, Apply;
    ghost var settled, failed := dev.Settled(), 0;
    var start := block * BLOCK_SIZE + off;
    ghost var skip := Skipped(dev.busy > 0, start, |data|);
    ok, failed := SnorProgram(dev, start, data);
    sent := if ok then |data| else failed + ChunkSize(start + failed, |data| - failed);
    assert data[skip..|data|] == data[skip..] && data[0..] == data;
    assert InBounds(Prog(block, off + skip, data[skip..sent]));
    ProgramRefines(settled, block, off + skip, data[skip..sent]);
    if data == [] {
      ProgrammedNothing(settled, start);
    }
  }

  // Erases a block and waits as long as it takes. Only an idle device erases: a busy one ignores
  // the command, and success is reported all the same.
  method EraseFlash(dev: NorDevice, block: nat) returns (ok: bool)
    requires dev.Valid() && InBounds(Erase(block))
    modifies dev
    ensures ok && dev.Idle()
    ensures old(dev.busy) == 0 ==>
      && dev.mem[..block * 4096] == old(dev.mem)[..block * 4096]
      && dev.mem[(block + 1) * 4096..] == old(dev.mem)[(block + 1) * 4096..]
      && forall i :: block * 4096 <= i < (block + 1) * 4096 ==> dev.mem[i] == 0xFF
    ensures View(dev.mem) ==
      if old(dev.busy) == 0 then Apply(old(View(dev.mem)), Erase(block)) else old(View(dev.Settled()))
    ensures View(dev.mem)[block] == Blank() <==>
      old(dev.busy) == 0 || old(View(dev.Settled()))[block] == Blank()
  {
    ghost var mem := dev.mem;
    SnorStartEraseSector(dev, block);
    ghost var settled := dev.Settled();
    var erasing := SnorQueryErase(dev);
    while erasing
      invariant dev.Valid() && dev.Settled() == settled && (!erasing ==> dev.busy == 0)
      decreases dev.busy, erasing
    {
      erasing := SnorQueryErase(dev);
    }
    EraseRefines(mem, block);
    ok := true;
  }

  datatype Result = Result(ok: bool, data: seq<byte>)

  // What a request amounts to on the abstract device: a write what it sent and the device did not
  // ignore; an erase nothing if the device was busy. `before` and `after` say whether it was.
  ghost predicate Effected(r: Request, effect: Request, before: bool, after: bool, ok: bool)
    requires InBounds(r)
  {
    match r
    case Read(block, off, size) => ok && effect == r && after == before
    case Erase(block) => ok && !after && effect == if before then Read(block, 0, 0) else r
    case Prog(block, off, data) =>
      var skip := Skipped(before, block * BLOCK_SIZE + off, |data|);
      && effect.Prog? && skip + |effect.data| <= |data|
      && effect == Prog(block, off + skip, data[skip..skip + |effect.data|])
      && (ok ==> skip + |effect.data| == |data|)
      && (ok && data != [] ==> !after) && (data == [] ==> ok && after == before)
  }

  // Any sequence of requests, with failures on the way: the flash equals the abstract blocks after
  // what the requests amounted to, and a read of an idle device returns what they hold. Without a
  // failure every request amounts to itself.
  method Run(dev: NorDevice, rs: seq<Request>)
    returns (results: seq<Result>, ghost effects: seq<Request>, ghost busy: seq<bool>)
    requires dev.Valid() && forall i :: 0 <= i < |rs| ==> InBounds(rs[i])
    modifies dev
    ensures dev.Valid() && |results| == |effects| == |rs| && |busy| == |rs| + 1
    ensures busy[0] == (old(dev.busy) > 0) && busy[|rs|] == (dev.busy > 0)
    ensures forall i :: 0 <= i < |rs| ==>
      InBounds(effects[i]) && Effected(rs[i], effects[i], busy[i], busy[i + 1], results[i].ok)
    ensures View(dev.Settled()) == ApplyAll(old(View(dev.Settled())), effects)
    ensures forall i :: 0 <= i < |rs| && !busy[i] ==>
      results[i].data == ReadBack(ApplyAll(old(View(dev.Settled())), effects[..i]), rs[i])
    ensures old(dev.busy) == 0 && (forall i :: 0 <= i < |rs| ==> results[i].ok) ==>
      effects == rs && dev.Idle() && View(dev.mem) == ApplyAll(old(View(dev.mem)), rs)
  {
    hide View, Apply, ApplyAll, ReadBack, Effected, Skipped, Complete;
    ghost var start := View(dev.Settled());
    results, effects, busy := [], [], [dev.busy > 0];
    ApplyNone(start, []);
    var done := 0;
    while done < |rs|
      invariant 0 <= done <= |rs| && dev.Valid()
      invariant |results| == |effects| == done && |busy| == done + 1
      invariant busy[0] == (old(dev.busy) > 0) && busy[done] == (dev.busy > 0)
      invariant forall i :: 0 <= i < done ==>
        InBounds(effects[i]) && Effected(rs[i], effects[i], busy[i], busy[i + 1], results[i].ok)
      invariant View(dev.Settled()) == ApplyAll(start, effects)
      invariant forall i :: 0 <= i < done && !busy[i] ==>
        results[i].data == ReadBack(ApplyAll(start, effects[..i]), rs[i])
    {
      ghost var was, before := effects, dev.busy > 0;
      var result;
      ghost var effect;
      result, effect := Handle(dev, rs[done]);
      results, effects, busy := results + [result], effects + [effect], busy + [dev.busy > 0];
      assert effects[..done] == was;
      ApplyNext(start, effects, done);
      assert effects[..done + 1] == effects;
      assert forall i :: 0 <= i < done ==> effects[..i] == was[..i];
      done := done + 1;
    }
    if old(dev.busy) == 0 && forall i :: 0 <= i < |rs| ==> results[i].ok {
      NoFailureNoLoss(rs, results, effects, busy, |rs|);
      assert effects[..|rs|] == effects && rs[..|rs|] == rs;
    }
  }

  // One request.
  method Handle(dev: NorDevice, r: Request) returns (result: Result, ghost effect: Request)
    requires dev.Valid() && InBounds(r)
    modifies dev
    ensures dev.Valid() && InBounds(effect)
    ensures Effected(r, effect, old(dev.busy) > 0, dev.busy > 0, result.ok)
    ensures View(dev.Settled()) == Apply(old(View(dev.Settled())), effect)
    ensures old(dev.busy) == 0 ==> result.data == ReadBack(old(View(dev.Settled())), r)
  {
    hide View, Apply, ReadBack, Skipped, Complete;
    ghost var settled, was := View(dev.Settled()), dev.busy > 0;
    OnlyReadsRead(settled, r);
    var ok, data := true, [];
    match r {
      case Read(block, off, size) =>
        ok, data := ReadFlash(dev, block, off, size);
        effect := r;
      case Prog(block, off, bytes) =>
        ghost var sent;
        ok, sent := WriteFlash(dev, block, off, bytes);
        ghost var skip := Skipped(was, block * BLOCK_SIZE + off, |bytes|);
        effect := Prog(block, off + skip, bytes[skip..sent]);
      case Erase(block) =>
        ok := EraseFlash(dev, block);
        effect := if was then Read(block, 0, 0) else r;
        OnlyReadsRead(settled, Read(block, 0, 0));
    }
    result := Result(ok, data);
  }

  // Up to the first failure of a run that finds the device idle, every request amounts to itself.
  lemma {:induction false} NoFailureNoLoss(rs: seq<Request>, results: seq<Result>, effects: seq<Request>,
                                              busy: seq<bool>, n: nat)
    requires n <= |rs| == |results| == |effects| == |busy| - 1 && !busy[0]
    requires forall i :: 0 <= i < |rs| ==>
      InBounds(rs[i]) && Effected(rs[i], effects[i], busy[i], busy[i + 1], results[i].ok)
    requires forall i :: 0 <= i < n ==> results[i].ok
    ensures effects[..n] == rs[..n] && !busy[n]
    decreases n
  {
    if n > 0 {
      NoFailureNoLoss(rs, results, effects, busy, n - 1);
      assert Effected(rs[n - 1], effects[n - 1], busy[n - 1], busy[n], results[n - 1].ok);
      hide Effected;
      Effect(rs[n - 1], effects[n - 1], busy[n - 1], busy[n], results[n - 1].ok);
      assert effects[..n] == effects[..n - 1] + [effects[n - 1]];
    }
  }

  // A request amounts to something in its own block, and to itself if the device was idle and it
  // succeeded.
  lemma Effect(r: Request, effect: Request, before: bool, after: bool, ok: bool)
    requires InBounds(r) && Effected(r, effect, before, after, ok)
    ensures effect.block == r.block
    ensures !before && ok ==> effect == r && !after
  {
    if r.Prog? {
      assert r.data[0..|r.data|] == r.data;
    }
  }

  // Whatever fails in a run, blocks that no request addressed keep their contents.
  lemma OtherBlocksKept(blocks: Blocks, rs: seq<Request>, results: seq<Result>, effects: seq<Request>,
                        busy: seq<bool>, block: nat)
    requires |rs| == |results| == |effects| == |busy| - 1 && block < BLOCK_COUNT
    requires forall i :: 0 <= i < |rs| ==>
      && InBounds(rs[i]) && rs[i].block != block && InBounds(effects[i])
      && Effected(rs[i], effects[i], busy[i], busy[i + 1], results[i].ok)
    ensures ApplyAll(blocks, effects)[block] == blocks[block]
  {
    hide Apply, Effected;
    forall i | 0 <= i < |rs| ensures effects[i].block != block {
      Effect(rs[i], effects[i], busy[i], busy[i + 1], results[i].ok);
    }
    OthersLeaveAlone(blocks, [], effects, block);
    assert [] + effects == effects;
  }

  // An erase right after a write that timed out and left the device busy is lost, with success
  // reported: its block is blank afterwards exactly if it was blank after what the write sent, so
  // for another block than the write's, exactly if it was before.
  lemma EraseAfterTimeout(blocks: Blocks, write: Request, erase: Request, effects: seq<Request>,
                          busy: seq<bool>, oks: seq<bool>)
    requires |effects| == |oks| == 2 && |busy| == 3 && busy[1]
    requires InBounds(write) && write.Prog? && InBounds(erase) && erase.Erase?
    requires InBounds(effects[0]) && Effected(write, effects[0], busy[0], busy[1], oks[0])
    requires InBounds(effects[1]) && Effected(erase, effects[1], busy[1], busy[2], oks[1])
    ensures oks[1]
    ensures ApplyAll(blocks, effects)[erase.block] == Blank() <==> Apply(blocks, effects[0])[erase.block] == Blank()
    ensures erase.block != write.block ==>
      (ApplyAll(blocks, effects)[erase.block] == Blank() <==> blocks[erase.block] == Blank())
  {
    assert effects[..1][..0] == [];
    assert ApplyAll(blocks, effects[..1]) == Apply(blocks, effects[0]);
  }

  lemma ApplyNone(blocks: Blocks, rs: seq<Request>)
    requires forall i :: 0 <= i < |rs| ==> InBounds(rs[i])
    ensures ApplyAll(blocks, rs[..0]) == blocks
  {
  }

  lemma ApplyNext(blocks: Blocks, rs: seq<Request>, n: nat)
    requires n < |rs| && forall i :: 0 <= i < |rs| ==> InBounds(rs[i])
    ensures ApplyAll(blocks, rs[..n + 1]) == Apply(ApplyAll(blocks, rs[..n]), rs[n])
  {
    hide Apply;
    assert rs[..n + 1][..n] == rs[..n];
  }

  lemma OnlyReadsRead(blocks: Blocks, r: Request)
    requires InBounds(r)
    ensures r.Read? ==> Apply(blocks, r) == blocks
    ensures !r.Read? ==> ReadBack(blocks, r) == []
  {
  }

  // ---- What the file system relies on ----

  lemma AndOnes(b: byte)
    ensures And(0xFF, b) == b
  {
  }

  // After an erase, bytes programmed once read back exactly, whatever requests to other blocks
  // come in between.
  lemma ProgramReadsBack(blocks: Blocks, block: nat, off: nat, data: seq<byte>, before: seq<Request>, after: seq<Request>)
    requires InBounds(Prog(block, off, data))
    requires forall i :: 0 <= i < |before| ==> InBounds(before[i]) && before[i].block != block
    requires forall i :: 0 <= i < |after| ==> InBounds(after[i]) && after[i].block != block
    ensures var rs := [Erase(block)] + before + [Prog(block, off, data)] + after;
      ReadBack(ApplyAll(blocks, rs), Read(block, off, |data|)) == data
  {
    hide Programmed, Apply;
    var head := [Erase(block)] + before;
    var full := head + [Prog(block, off, data)];
    OthersLeaveAlone(blocks, [Erase(block)], before, block);
    OthersLeaveAlone(blocks, full, after, block);
    assert full[..|full| - 1] == head && [Erase(block)][..0] == [];
    ApplyAt(blocks, Erase(block));
    ApplyAt(ApplyAll(blocks, head), Prog(block, off, data));
    ProgramBlank(off, data);
  }

  lemma ApplyAt(blocks: Blocks, r: Request)
    requires InBounds(r)
    ensures r.Erase? ==> Apply(blocks, r)[r.block] == Blank()
    ensures r.Prog? ==> Apply(blocks, r)[r.block] == Programmed(blocks[r.block], r.off, r.data)
  {
  }

  lemma ProgramBlank(off: nat, data: seq<byte>)
    requires off + |data| <= BLOCK_SIZE
    ensures Programmed(Blank(), off, data)[off..off + |data|] == data
  {
    hide And;
    var blank := Blank();
    var done := Programmed(blank, off, data);
    forall i | 0 <= i < |data| ensures done[off..off + |data|][i] == data[i] {
      AndOnes(data[i]);
      assert done[off + i] == And(blank[off + i], data[i]);
    }
  }

  // Requests to other blocks do not touch a block.
  lemma {:induction false} OthersLeaveAlone(blocks: Blocks, first: seq<Request>, rs: seq<Request>, block: nat)
    requires block < BLOCK_COUNT
    requires forall i :: 0 <= i < |first| ==> InBounds(first[i])
    requires forall i :: 0 <= i < |rs| ==> InBounds(rs[i]) && rs[i].block != block
    ensures ApplyAll(blocks, first + rs)[block] == ApplyAll(blocks, first)[block]
    decreases |rs|
  {
    if rs == [] {
      assert first + rs == first;
    } else {
      var n := |rs| - 1;
      assert (first + rs)[..|first| + n] == first + rs[..n];
      OthersLeaveAlone(blocks, first, rs[..n], block);
    }
  }

  // Requests to different blocks commute.
  lemma DifferentBlocksCommute(blocks: Blocks, r: Request, q: Request)
    requires InBounds(r) && InBounds(q) && r.block != q.block
    ensures Apply(Apply(blocks, r), q) == Apply(Apply(blocks, q), r)
  {
  }
}
