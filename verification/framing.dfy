/**
 * EP0 control-transfer framing: padding, the chunk plan of a write, and the
 * request for the next chunk of a read.
 */
module Framing {
  import opened ByteStrings

  const MAX_CHUNK: nat := 0x1000
  const CHUNKS_MAX: nat := 8
  const CONTINUED: nat := 0x4000
  const MORE: nat := 0x8000

  datatype WriteChunk = WriteChunk(offset: nat, len: nat, wvalue: nat)

  /** One control-OUT as it appears on the wire. */
  datatype Transfer = Transfer(wvalue: nat, data: Bytes)

  // ---------------------------------------------------------------- padding

  /** C's remainder: it takes the sign of the dividend. */
  function TruncRem(a: int, b: int): int
    requires b > 0
  {
    if a >= 0 then a % b else -((-a) % b)
  }

  /** The padded length, computed as the driver does. */
  function PaddedLen(n: nat): (p: nat)
    ensures p % 8 == 0 && n <= p < n + 8
  {
    var pad := TruncRem(0 - n, 8);
    n + (if pad < 0 then pad + 8 else pad)
  }

  function Padded(cmd: Bytes): (p: Bytes)
    ensures |p| == PaddedLen(|cmd|) && cmd <= p
  {
    cmd + Zeros(PaddedLen(|cmd|) - |cmd|)
  }

  // ---------------------------------------------------------- the write plan

  /** How many control-OUTs a command of `n` bytes needs. */
  function ChunkCount(n: nat): (k: nat)
    ensures k >= 1
    ensures PaddedLen(n) <= k * MAX_CHUNK
    ensures k > 1 ==> (k - 1) * MAX_CHUNK < PaddedLen(n)
  {
    if n == 0 then 1 else (PaddedLen(n) + MAX_CHUNK - 1) / MAX_CHUNK
  }

  /** Chunk `k` of the complete plan, given by its position alone. */
  function PlanAt(n: nat, k: nat): WriteChunk
    requires k < ChunkCount(n)
  {
    var last := k == ChunkCount(n) - 1;
    WriteChunk(k * MAX_CHUNK,
               if last then PaddedLen(n) - k * MAX_CHUNK else MAX_CHUNK,
               (if k == 0 then 0 else CONTINUED) + (if last then n % 8 else MORE))
  }

  function Plan(n: nat): (p: seq<WriteChunk>)
    ensures |p| == ChunkCount(n)
    ensures forall k :: 0 <= k < |p| ==> p[k] == PlanAt(n, k)
  {
    seq(ChunkCount(n), k requires 0 <= k < ChunkCount(n) => PlanAt(n, k))
  }

  /**
   * The planner writes at most CHUNKS_MAX entries: the first entries of the
   * complete plan. Flag bits are disjoint, so the driver's `|=` is addition.
   */
  method WriteChunks(n: nat, chunks: array<WriteChunk>) returns (count: nat)
    requires chunks.Length >= CHUNKS_MAX
    modifies chunks
    ensures count == Min(ChunkCount(n), CHUNKS_MAX)
    ensures chunks[..count] == Plan(n)[..count]
    ensures forall i :: count <= i < chunks.Length ==> chunks[i] == old(chunks[i])
  {
    var total := PaddedLen(n);
    if total == 0 {
      chunks[0] := WriteChunk(0, 0, n % 8);
      assert chunks[..1] == Plan(n)[..1];
      return 1;
    }
    var off := 0;
    var first := true;
    count := 0;
    while off < total && count < CHUNKS_MAX
      invariant 0 <= count <= CHUNKS_MAX && count <= ChunkCount(n)
      invariant off == Min(count * MAX_CHUNK, total)
      invariant first == (count == 0)
      invariant forall i :: 0 <= i < count ==> chunks[i] == PlanAt(n, i)
      invariant forall i :: count <= i < chunks.Length ==> chunks[i] == old(chunks[i])
      decreases total - off
    {
      var chunklen := Min(total - off, MAX_CHUNK);
      var islast := off + chunklen >= total;
      var wvalue := if first then 0 else CONTINUED;
      if islast {
        wvalue := wvalue + n % 8;
      } else if chunklen == MAX_CHUNK {
        wvalue := wvalue + MORE;
      }
      chunks[count] := WriteChunk(off, chunklen, wvalue);
      count := count + 1;
      off := off + chunklen;
      first := false;
    }
  }

  // ------------------------------------------------------------ the transfers

  function TransferOf(buf: Bytes, c: WriteChunk): Transfer
  {
    if c.offset + c.len <= |buf| then Transfer(c.wvalue, buf[c.offset..c.offset + c.len])
    else Transfer(c.wvalue, [])
  }

  /** The transfers of the complete plan. */
  function Transfers(cmd: Bytes): (ts: seq<Transfer>)
    ensures |ts| == ChunkCount(|cmd|)
  {
    seq(ChunkCount(|cmd|), k requires 0 <= k < ChunkCount(|cmd|) => TransferOf(Padded(cmd), PlanAt(|cmd|, k)))
  }

  /** The transfers the driver sends: the plan has room for eight. */
  function SentTransfers(cmd: Bytes): seq<Transfer> {
    Transfers(cmd)[..Min(ChunkCount(|cmd|), CHUNKS_MAX)]
  }

  /** The chunks that start inside the padded command; the last is the one that reaches its end. */
  lemma ChunkAt(n: nat, k: nat)
    ensures n > 0 ==> (k < ChunkCount(n) <==> k * MAX_CHUNK < PaddedLen(n))
    ensures n > 0 && k < ChunkCount(n) ==> (k == ChunkCount(n) - 1 <==> (k + 1) * MAX_CHUNK >= PaddedLen(n))
  {
  }

  /** Transfer `k`, if any, is the slice at its place, with the flags of its place. */
  lemma TransferAt(cmd: Bytes, k: nat)
    requires cmd != [] && k * MAX_CHUNK < |Padded(cmd)|
    ensures k < ChunkCount(|cmd|)
    ensures var off, total := k * MAX_CHUNK, |Padded(cmd)|;
            Transfers(cmd)[k] == Transfer((if k == 0 then 0 else CONTINUED)
                                            + (if off + MAX_CHUNK >= total then |cmd| % 8 else MORE),
                                          Padded(cmd)[off..Min(off + MAX_CHUNK, total)])
  {
    hide ChunkCount, PaddedLen, Padded;
    ChunkAt(|cmd|, k);
    assert Transfers(cmd)[k] == TransferOf(Padded(cmd), PlanAt(|cmd|, k));
  }

  /** The Python reference: no plan, slices of the padded buffer until none is left. */
  method ReferenceWrite(cmd: Bytes) returns (sent: seq<Transfer>)
    ensures sent == Transfers(cmd)
  {
    var truelen := |cmd|;
    var buf := cmd + Zeros((-truelen) % 8);
    assert (-truelen) % 8 == PaddedLen(truelen) - truelen;
    assert buf == Padded(cmd);
    hide ChunkCount, PaddedLen, Padded, Transfers;
    var total := |buf|;
    if total == 0 {
      NoChunks(cmd);
      sent := [Transfer(truelen % 8, [])];
      return;
    }
    var off, first := 0, true;
    sent := [];
    while off < total
      invariant |sent| <= ChunkCount(truelen)
      invariant off == Min(|sent| * MAX_CHUNK, total)
      invariant first == (sent == [])
      invariant sent <= Transfers(cmd)
      decreases total - off
    {
      TransferAt(cmd, |sent|);
      var chunk := buf[off..Min(off + MAX_CHUNK, total)];
      var islast := off + |chunk| >= total;
      var wvalue := if first then 0 else CONTINUED;
      if islast {
        wvalue := wvalue + truelen % 8;
      } else if |chunk| == MAX_CHUNK {
        wvalue := wvalue + MORE;
      }
      assert Transfer(wvalue, chunk) == Transfers(cmd)[|sent|];
      sent := sent + [Transfer(wvalue, chunk)];
      off := off + |chunk|;
      first := false;
    }
    ChunkAt(truelen, |sent|);
  }

  lemma NoChunks(cmd: Bytes)
    requires cmd == []
    ensures Transfers(cmd) == [Transfer(0, [])]
  {
  }

  /**
   * The driver sends what the reference sends exactly when the padded command
   * fits eight chunks; a longer command loses its tail.
   */
  lemma SentIsCompleteIff(cmd: Bytes)
    ensures SentTransfers(cmd) == Transfers(cmd) <==> PaddedLen(|cmd|) <= 32768
  {
    var k := ChunkCount(|cmd|);
    if k <= CHUNKS_MAX {
      assert Transfers(cmd)[..k] == Transfers(cmd);
      assert k * MAX_CHUNK <= CHUNKS_MAX * MAX_CHUNK;
    } else {
      assert |SentTransfers(cmd)| < |Transfers(cmd)|;
      assert CHUNKS_MAX * MAX_CHUNK <= (k - 1) * MAX_CHUNK;
    }
  }

  // -------------------------------------------------------------- the receiver

  /** What a receiver remembers: the bytes of the command in progress, and the commands received. */
  datatype Receiver = Receiver(acc: Bytes, done: seq<Bytes>)

  /** The pad the low three length bits announce. */
  function PadOf(low: nat): nat {
    (8 - low % 8) % 8
  }

  /** A receiver that reads only chunk bytes, the two flags and the low length bits. */
  function Receive(r: Receiver, t: Transfer): Receiver {
    var acc := (if (t.wvalue / CONTINUED) % 2 == 1 then r.acc else []) + t.data;
    if (t.wvalue / MORE) % 2 == 1 then Receiver(acc, r.done)
    else Receiver([], r.done + [acc[..Max(0, |acc| - PadOf(t.wvalue))]])
  }

  function ReceiveAll(r: Receiver, ts: seq<Transfer>): Receiver
    decreases |ts|
  {
    if ts == [] then r else ReceiveAll(Receive(r, ts[0]), ts[1..])
  }

  lemma {:induction false} ReceiveAllSplits(r: Receiver, a: seq<Transfer>, b: seq<Transfer>)
    ensures ReceiveAll(r, a + b) == ReceiveAll(ReceiveAll(r, a), b)
    decreases |a|
  {
    if a == [] {
      assert a + b == b;
    } else {
      ReceiveAllSplits(Receive(r, a[0]), a[1..], b);
      assert (a + b)[1..] == a[1..] + b;
    }
  }

  lemma NothingReceived(r: Receiver, ts: seq<Transfer>)
    ensures ts == [] ==> ReceiveAll(r, ts) == r
  {
  }

  /** A chunk before the last is a full slice; the receiver keeps it, and drops what it had only at the first. */
  lemma ReceiveOne(r: Receiver, cmd: Bytes, k: nat)
    requires k + 1 < ChunkCount(|cmd|)
    ensures (k + 1) * MAX_CHUNK <= |Padded(cmd)|
    ensures ReceiveAll(r, [Transfers(cmd)[k]])
         == Receiver((if k == 0 then [] else r.acc) + Padded(cmd)[k * MAX_CHUNK..(k + 1) * MAX_CHUNK], r.done)
  {
    hide Padded, PaddedLen;
    var t := Transfers(cmd)[k];
    assert t == TransferOf(Padded(cmd), PlanAt(|cmd|, k));
    assert ReceiveAll(r, [t]) == Receive(r, t);
  }

  /** After the chunks before the last one, the receiver holds exactly their bytes. */
  lemma {:induction false} ReceivesPrefix(r: Receiver, cmd: Bytes, k: nat)
    requires k < ChunkCount(|cmd|)
    ensures k * MAX_CHUNK <= |Padded(cmd)|
    ensures k > 0 ==> ReceiveAll(r, Transfers(cmd)[..k]) == Receiver(Padded(cmd)[..k * MAX_CHUNK], r.done)
    decreases k
  {
    hide Receive, ReceiveAll, Padded, PaddedLen, ChunkCount, Transfers;
    if k == 0 {
    } else {
      ReceivesPrefix(r, cmd, k - 1);
      var ts := Transfers(cmd);
      assert ts[..k] == ts[..k - 1] + [ts[k - 1]];
      ReceiveAllSplits(r, ts[..k - 1], [ts[k - 1]]);
      ReceiveOne(ReceiveAll(r, ts[..k - 1]), cmd, k - 1);
      NothingReceived(r, ts[..0]);
      assert Padded(cmd)[..k * MAX_CHUNK]
          == Padded(cmd)[..(k - 1) * MAX_CHUNK] + Padded(cmd)[(k - 1) * MAX_CHUNK..k * MAX_CHUNK];
    }
  }

  /** The last transfer carries the rest of the padded command. */
  lemma LastTransfer(cmd: Bytes)
    ensures var k := ChunkCount(|cmd|) - 1; var p := Padded(cmd);
            k * MAX_CHUNK <= |p|
            && Transfers(cmd)[k] == Transfer(PlanAt(|cmd|, k).wvalue, p[k * MAX_CHUNK..])
  {
    var k := ChunkCount(|cmd|) - 1;
    ReceivesPrefix(Receiver([], []), cmd, k);
    assert Padded(cmd)[k * MAX_CHUNK..|Padded(cmd)|] == Padded(cmd)[k * MAX_CHUNK..];
  }

  /** Whatever the receiver held before, a complete command adds exactly itself. */
  lemma ReceivesCommand(r: Receiver, cmd: Bytes)
    ensures ReceiveAll(r, Transfers(cmd)) == Receiver([], r.done + [cmd])
  {
    var n, ts := |cmd|, Transfers(cmd);
    var k := ChunkCount(n) - 1;
    LastTransfer(cmd);
    ReceivesPrefix(r, cmd, k);
    assert ts == ts[..k] + [ts[k]];
    ReceiveAllSplits(r, ts[..k], [ts[k]]);
    ReceivesLast(ReceiveAll(r, ts[..k]), cmd);
  }

  lemma ReceivesLast(before: Receiver, cmd: Bytes)
    requires var k := ChunkCount(|cmd|) - 1; k > 0 ==>
               k * MAX_CHUNK <= |Padded(cmd)| && before.acc == Padded(cmd)[..k * MAX_CHUNK]
    ensures ReceiveAll(before, [Transfers(cmd)[ChunkCount(|cmd|) - 1]]) == Receiver([], before.done + [cmd])
  {
    hide Transfers, PlanAt;
    var n, p := |cmd|, Padded(cmd);
    var k := ChunkCount(n) - 1;
    var t := Transfers(cmd)[k];
    LastTransfer(cmd);
    LastFlags(n);
    assert p == p[..k * MAX_CHUNK] + p[k * MAX_CHUNK..];
    assert p[..n] == cmd;
    var acc := (if (t.wvalue / CONTINUED) % 2 == 1 then before.acc else []) + t.data;
    assert acc == p by {
      if k == 0 {
        assert p[0..] == p;
      }
    }
    assert ReceiveAll(before, [t]) == Receive(before, t) by {
      assert [t][1..] == [];
    }
  }

  lemma LastFlags(n: nat)
    ensures var w := PlanAt(n, ChunkCount(n) - 1).wvalue;
            (w / MORE) % 2 == 0 && PaddedLen(n) - PadOf(w) == n
            && ((w / CONTINUED) % 2 == 1 <==> ChunkCount(n) > 1)
  {
    assert n % 8 < 8;
    var w := PlanAt(n, ChunkCount(n) - 1).wvalue;
    assert w % 8 == n % 8;
  }

  function AllTransfers(cmds: seq<Bytes>): seq<Transfer> {
    if cmds == [] then [] else SentTransfers(cmds[0]) + AllTransfers(cmds[1..])
  }

  /**
   * Write framing is self-delimiting: from any starting state a receiver
   * recovers exactly the list of commands, however they run together.
   */
  lemma {:induction false} SelfDelimiting(r: Receiver, cmds: seq<Bytes>)
    requires forall i :: 0 <= i < |cmds| ==> |cmds[i]| <= 32768
    ensures ReceiveAll(r, AllTransfers(cmds)).done == r.done + cmds
    decreases |cmds|
  {
    hide Receive, Transfers, PaddedLen, ChunkCount;
    if cmds == [] {
      assert r.done + cmds == r.done;
    } else {
      SentIsCompleteIff(cmds[0]);
      ReceivesCommand(r, cmds[0]);
      ReceiveAllSplits(r, SentTransfers(cmds[0]), AllTransfers(cmds[1..]));
      SelfDelimiting(Receiver([], r.done + [cmds[0]]), cmds[1..]);
      assert r.done + [cmds[0]] + cmds[1..] == r.done + cmds;
    }
  }

  /** One byte past eight chunks: the tail is never sent and the receiver still waits for it. */
  lemma OverlongCommandIsCut(cmd: Bytes)
    requires |cmd| > 32768
    ensures ReceiveAll(Receiver([], []), SentTransfers(cmd)) == Receiver(cmd[..32768], [])
  {
    assert ChunkCount(|cmd|) > CHUNKS_MAX;
    ReceivesPrefix(Receiver([], []), cmd, CHUNKS_MAX);
    assert Padded(cmd)[..CHUNKS_MAX * MAX_CHUNK] == cmd[..CHUNKS_MAX * MAX_CHUNK];
  }

  // ------------------------------------------------------------------ reading

  /** The next control-IN: how much to ask for, and the flags to ask with. */
  function NextRead(remaining: nat, first: bool): (r: (nat, nat))
    ensures r.0 <= remaining && r.0 <= MAX_CHUNK && (remaining > 0 ==> r.0 > 0)
  {
    var want := Min(remaining, MAX_CHUNK);
    (want, (if first then 0 else CONTINUED) + (if want == MAX_CHUNK then MORE else 0))
  }
}
