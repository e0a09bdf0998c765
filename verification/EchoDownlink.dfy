/** The echo canceller's downlink: a blocked writer's buffer of any size is cut into the
    uplink's fixed frames, with the fraction left over kept in a scratch buffer. */
module EchoDownlink {

  type Byte = x: int | 0 <= x < 0x100

  // ----- what the downlink means, on values

  /** The scratch bytes, the unread part of the writer's buffer, and whether the writer waits. */
  datatype Line = Line(scratch: seq<Byte>, unread: seq<Byte>, waiting: bool)

  function Min(a: int, b: int): int { if a < b then a else b }

  /** How much fresh data one uplink call of frame size b takes after the scratch data. */
  function Fresh(l: Line, b: nat): nat
    requires |l.scratch| < b
  {
    Min(|l.unread|, b - |l.scratch|)
  }

  /** The bytes one uplink call gathers. */
  function Gathered(l: Line, b: nat): seq<Byte>
    requires |l.scratch| < b
  {
    l.scratch + l.unread[..Fresh(l, b)]
  }

  function Zeros(n: nat): seq<Byte> { seq(n, _ => 0) }

  /** What one uplink call leaves: less than a frame goes to scratch and frees the writer. */
  function Next(l: Line, b: nat): Line
    requires |l.scratch| < b
  {
    var rest := l.unread[Fresh(l, b)..];
    if |rest| < b then Line(rest, [], false) else Line([], rest, l.waiting)
  }

  /** How many uplink calls a waiting writer is blocked for. */
  function CallsUntilReleased(l: Line, b: nat): nat
    requires |l.scratch| < b
    decreases |l.scratch| + |l.unread|
  {
    if Next(l, b).waiting then 1 + CallsUntilReleased(Next(l, b), b) else 1
  }

  /** The frames these calls gather, and what is in scratch afterwards. */
  function FramesUntilReleased(l: Line, b: nat): (r: (seq<seq<Byte>>, seq<Byte>))
    requires |l.scratch| < b
    decreases |l.scratch| + |l.unread|
  {
    var f := [Gathered(l, b)];
    if Next(l, b).waiting then
      var (fs, scratch) := FramesUntilReleased(Next(l, b), b);
      (f + fs, scratch)
    else
      (f, Next(l, b).scratch)
  }

  function Concat(fs: seq<seq<Byte>>): seq<Byte> {
    if fs == [] then [] else fs[0] + Concat(fs[1..])
  }

  lemma DivStep(total: nat, b: nat)
    requires 0 < b <= total
    ensures total / b == 1 + (total - b) / b
  {
    var q, r := (total - b) / b, (total - b) % b;
    assert total == (q + 1) * b + r;
    DivUnique(total, b, q + 1, r);
  }

  lemma DivUnique(total: nat, b: nat, q: nat, r: nat)
    requires 0 < b && r < b && total == q * b + r
    ensures total / b == q
  {
    var p, m := total / b, total % b;
    assert total == p * b + m;
    Multiple(p - q, b);
    assert (p - q) * b == p * b - q * b;
  }

  lemma Multiple(d: int, b: nat)
    ensures d >= 1 ==> d * b >= b
    ensures d <= -1 ==> d * b + b <= 0
  {
  }

  /** Back-pressure: a writer of W bytes that finds s scratch bytes is released by exactly
      max(1, (s + W) / b) uplink calls. */
  lemma {:induction false} ReleaseBound(l: Line, b: nat)
    requires |l.scratch| < b
    ensures l.waiting ==>
      var total := |l.scratch| + |l.unread|;
      CallsUntilReleased(l, b) == if total < b then 1 else total / b
    decreases |l.scratch| + |l.unread|
  {
    var total := |l.scratch| + |l.unread|;
    if l.waiting && total >= b {
      DivStep(total, b);
      if total >= 2 * b {
        ReleaseBound(Next(l, b), b);
      } else {
        DivUnique(total - b, b, 0, total - b);
      }
    }
  }

  /** One uplink call keeps every byte, in order, and fills its frame while the writer stays blocked. */
  lemma NextConserves(l: Line, b: nat)
    requires |l.scratch| < b
    ensures Gathered(l, b) + (Next(l, b).scratch + Next(l, b).unread) == l.scratch + l.unread
    ensures |Next(l, b).scratch| < b && (!Next(l, b).waiting ==> l.waiting ==> Next(l, b).unread == [])
    ensures |Gathered(l, b)| == Min(b, |l.scratch| + |l.unread|)
    ensures Next(l, b).waiting ==> l.waiting && |Next(l, b).unread| >= b
  {
  }

  lemma ConcatStep(f: seq<Byte>, fs: seq<seq<Byte>>, tail: seq<Byte>)
    ensures Concat([f] + fs) + tail == f + (Concat(fs) + tail)
  {
    assert ([f] + fs)[1..] == fs;
  }

  /** Conservation over a whole write: the frames and the new scratch are the old scratch
      and the buffer, in order; every frame is full unless even one frame was too much to fill. */
  lemma {:induction false} FramesAreTheWrite(l: Line, b: nat)
    requires |l.scratch| < b && l.waiting
    ensures var (fs, scratch) := FramesUntilReleased(l, b);
      && Concat(fs) + scratch == l.scratch + l.unread
      && |fs| == CallsUntilReleased(l, b)
      && |scratch| < b
      && (|l.scratch| + |l.unread| >= b ==> forall k :: 0 <= k < |fs| ==> |fs[k]| == b)
    decreases |l.scratch| + |l.unread|
  {
    NextConserves(l, b);
    var f, n := Gathered(l, b), Next(l, b);
    if n.waiting {
      FramesAreTheWrite(n, b);
      var (fs, scratch) := FramesUntilReleased(n, b);
      ConcatStep(f, fs, scratch);
      assert FramesUntilReleased(l, b) == ([f] + fs, scratch);
    } else {
      ConcatStep(f, [], n.scratch);
      assert [f] + [] == [f] && n.scratch + [] == n.scratch && Concat([]) + n.scratch == n.scratch;
    }
  }

  // ----- the zero padding

  /** The downlink frame after the padding: the memset starts at the 16-bit sample that
      holds byte |data|, and is as long as the bytes that are missing. */
  function Padded(data: seq<Byte>, stale: seq<Byte>): (r: seq<Byte>)
    requires |data| <= |stale|
    ensures |r| == |stale|
  {
    if |data| == |stale| then data
    else
      var from, n := |data| / 2 * 2, |stale| - |data|;
      data[..from] + Zeros(n) + stale[from + n..]
  }

  lemma PaddedAt(data: seq<Byte>, stale: seq<Byte>, i: nat)
    requires |data| < |stale| && i < |stale|
    ensures var from := |data| / 2 * 2;
      Padded(data, stale)[i] == if i < from then data[i] else if i < from + (|stale| - |data|) then 0 else stale[i]
  {
  }

  /** Only stale bytes behind the data are left in the frame. */
  lemma SamePadding(data: seq<Byte>, a: seq<Byte>, b: seq<Byte>)
    requires |data| <= |a| == |b| && forall i :: |data| <= i < |a| ==> a[i] == b[i]
    ensures Padded(data, a) == Padded(data, b)
  {
    if |data| < |a| {
      var from, n := |data| / 2 * 2, |a| - |data|;
      assert |data| <= from + n;
      assert a[from + n..] == b[from + n..];
    }
  }

  /** The frame is the gathered bytes with a zero tail if and only if these are whole
      samples or fill the frame, or the two bytes that the memset misplaces are zero anyway. */
  lemma ZeroTail(data: seq<Byte>, stale: seq<Byte>)
    requires |data| <= |stale|
    ensures Padded(data, stale) == data + Zeros(|stale| - |data|)
       <==> |data| == |stale| || |data| % 2 == 0 || (data[|data| - 1] == 0 && stale[|stale| - 1] == 0)
  {
    var p, q := Padded(data, stale), data + Zeros(|stale| - |data|);
    if |data| < |stale| && |data| % 2 == 1 {
      var from := |data| - 1;
      assert p[from] == 0 && q[from] == data[from];
      assert p[|stale| - 1] == stale[|stale| - 1] && q[|stale| - 1] == 0;
      if data[from] == 0 && stale[|stale| - 1] == 0 {
        assert forall i :: 0 <= i < |stale| ==> p[i] == q[i];
      }
    }
  }

  /** As long as frames and writes are whole samples, so is all that is gathered or left over. */
  lemma WholeSamples(l: Line, b: nat)
    requires |l.scratch| < b && b % 2 == 0 && |l.scratch| % 2 == 0 && |l.unread| % 2 == 0
    ensures |Gathered(l, b)| % 2 == 0
    ensures |Next(l, b).scratch| % 2 == 0 && |Next(l, b).unread| % 2 == 0
    ensures forall stale: seq<Byte> :: |stale| == b ==>
      Padded(Gathered(l, b), stale) == Gathered(l, b) + Zeros(b - |Gathered(l, b)|)
  {
    forall stale: seq<Byte> | |stale| == b
      ensures Padded(Gathered(l, b), stale) == Gathered(l, b) + Zeros(b - |Gathered(l, b)|)
    {
      ZeroTail(Gathered(l, b), stale);
    }
  }

  // ----- the implementation

  /** The bytes taken, the scratch and the unread rest still make up what was given. */
  lemma TakenConserves(taken: seq<Byte>, l: Line, b: nat, given: seq<Byte>)
    requires |l.scratch| < b && taken + (l.scratch + l.unread) == given
    ensures (taken + Gathered(l, b)) + (Next(l, b).scratch + Next(l, b).unread) == given
  {
    NextConserves(l, b);
    Assoc(taken, Gathered(l, b), Next(l, b).scratch + Next(l, b).unread);
  }

  lemma Assoc(a: seq<Byte>, b: seq<Byte>, c: seq<Byte>)
    ensures (a + b) + c == a + (b + c)
  {
  }

  datatype Block = Null | Malloced(bytes: seq<Byte>)

  class Downlink {
    const frame: nat               // the uplink's `bytes`
    const dlBuf: array<Byte>       // room for the frame in stereo
    var scratchBuf: Block
    var scratchSize: nat
    var outBuf: seq<Byte>          // the blocked writer's buffer
    var outReadOffset: nat
    var waiting: bool              // the writer waits for mEcnsBufCond
    var memLeak: bool              // the "Memleak" branch was taken

    ghost var given: seq<Byte>     // all the buffers handed to writeDownlinkEcns
    ghost var taken: seq<Byte>     // all the bytes gathered into downlink frames

    ghost function Scratch(): seq<Byte>
      reads this
    {
      if scratchBuf.Null? then [] else scratchBuf.bytes
    }

    /** The scratch is less than a frame, its size is right, and only a waiting writer has a buffer. */
    ghost predicate Shape()
      reads this
    {
      && dlBuf.Length == 2 * frame && 0 < frame
      && scratchSize == |Scratch()| < frame && (scratchBuf.Malloced? ==> scratchSize != 0)
      && outReadOffset <= |outBuf|
      && (!waiting ==> outBuf == [])
      && !memLeak
    }

    /** ... and no byte is lost, repeated or out of order. */
    ghost predicate Valid()
      reads this
    {
      Shape() && taken + (Scratch() + outBuf[outReadOffset..]) == given
    }

    ghost function View(): Line
      requires outReadOffset <= |outBuf|
      reads this
    {
      Line(Scratch(), outBuf[outReadOffset..], waiting)
    }

    constructor (frame: nat)
      requires 0 < frame
      ensures Valid() && fresh(dlBuf) && this.frame == frame && !waiting && given == []
    {
      this.frame := frame;
      dlBuf := new Byte[2 * frame];
      scratchBuf, scratchSize, outBuf, outReadOffset := Null, 0, [], 0;
      waiting, memLeak, given, taken := false, false, [], [];
    }

    /** The buffer part of writeDownlinkEcns, up to the wait. */
    method WriteDownlink(buffer: seq<Byte>)
      requires Valid() && !waiting
      modifies this
      ensures Valid() && waiting
      ensures given == old(given) + buffer && taken == old(taken)
      ensures View() == Line(old(View()).scratch, buffer, true)
    {
      outBuf, outReadOffset := buffer, 0;
      waiting := true;
      given := given + buffer;
      assert outBuf[0..] == buffer;
    }

    /** Behind the first n bytes the buffer still holds what it held. */
    ghost predicate StaleKept(n: nat, before: seq<Byte>)
      reads dlBuf
    {
      |before| == dlBuf.Length && forall i :: n <= i < dlBuf.Length ==> dlBuf[i] == before[i]
    }

    /** Scratch data first. */
    method TakeScratch() returns (n: nat)
      requires Shape()
      modifies this`scratchBuf, this`scratchSize, dlBuf
      ensures scratchBuf.Null? && scratchSize == 0
      ensures n == |old(Scratch())| < frame && dlBuf[..n] == old(Scratch())
      ensures StaleKept(n, old(dlBuf[..]))
    {
      n := 0;
      if scratchBuf.Malloced? && scratchSize != 0 {
        n := Min(scratchSize, frame);
        forall i | 0 <= i < n { dlBuf[i] := scratchBuf.bytes[i]; }
        scratchSize := scratchSize - n;
        if scratchSize == 0 {
          scratchBuf := Null;
        }
      }
    }

    /** Fresh data second: the first k bytes of u, which is unread. */
    method TakeFresh(n0: nat, ghost u: seq<Byte>, ghost k: nat) returns (n: nat)
      requires dlBuf.Length == 2 * frame && n0 < frame && outReadOffset <= |outBuf| && u == outBuf[outReadOffset..]
      requires k == Min(|u|, frame - n0)
      modifies this`outReadOffset, dlBuf
      ensures n == n0 + k <= frame && k <= |u|
      ensures dlBuf[..n] == old(dlBuf[..n0]) + u[..k] && StaleKept(n, old(dlBuf[..]))
      ensures outReadOffset <= |outBuf| && outBuf[outReadOffset..] == u[k..]
    {
      var bytesToCopy := |outBuf| - outReadOffset;
      bytesToCopy := if bytesToCopy + n0 > frame then frame - n0 else bytesToCopy;
      n := n0;
      if bytesToCopy != 0 {
        forall i | 0 <= i < bytesToCopy { dlBuf[n0 + i] := outBuf[outReadOffset + i]; }
        n := n + bytesToCopy;
      }
      outReadOffset := outReadOffset + bytesToCopy;
    }

    /** What is left of less than a frame goes to scratch, and the writer is set free. */
    method Deplete(ghost rest: seq<Byte>)
      requires outReadOffset <= |outBuf| && rest == outBuf[outReadOffset..]
      modifies this`scratchBuf, this`scratchSize, this`outBuf, this`outReadOffset, this`waiting, this`memLeak
      ensures outReadOffset <= |outBuf| && (|rest| < frame ==> outBuf == [])
      ensures memLeak == (old(memLeak) || (|rest| < frame && old(scratchBuf).Malloced?))
      ensures old(scratchBuf).Null? && old(scratchSize) == 0 ==>
        && Line(Scratch(), outBuf[outReadOffset..], waiting)
             == (if |rest| < frame then Line(rest, [], false) else Line([], rest, old(waiting)))
        && scratchSize == |Scratch()| && (scratchBuf.Malloced? ==> scratchSize != 0)
    {
      if |outBuf| - outReadOffset < frame {
        if scratchBuf.Malloced? {
          memLeak := true;
        }
        if |outBuf| - outReadOffset > 0 {
          scratchBuf := Malloced(outBuf[outReadOffset..]);
          scratchSize := |outBuf| - outReadOffset;
        }
        outBuf, outReadOffset := [], 0;
        waiting := false;
      }
    }

    /** The memset of what is missing, from the sample that holds byte n. */
    method Pad(n: nat, ghost before: seq<Byte>)
      requires dlBuf.Length == 2 * frame && n <= frame && StaleKept(n, before)
      modifies dlBuf
      ensures dlBuf[..frame] == Padded(old(dlBuf[..n]), before[..frame])
    {
      ghost var data, stale := dlBuf[..n], dlBuf[..frame];
      SamePadding(data, stale, before[..frame]);
      if n < frame {
        var start := n / 2 * 2;
        forall i | 0 <= i < frame - n { dlBuf[start + i] := 0; }
        forall i | 0 <= i < frame ensures dlBuf[i] == Padded(data, stale)[i] {
          PaddedAt(data, stale, i);
        }
      }
    }

    /** The fresh part of a frame, once the scratch data of l is in the buffer. */
    method GatherFresh(n0: nat, ghost l: Line) returns (n: nat)
      requires dlBuf.Length == 2 * frame && n0 == |l.scratch| < frame && dlBuf[..n0] == l.scratch
      requires scratchBuf.Null? && scratchSize == 0 && outReadOffset <= |outBuf| && (!waiting ==> outBuf == []) &&
        !memLeak
      requires l.unread == outBuf[outReadOffset..] && l.waiting == waiting
      modifies this`scratchBuf, this`scratchSize, this`outBuf, this`outReadOffset, this`waiting, this`memLeak, dlBuf
      ensures n <= frame && dlBuf[..n] == Gathered(l, frame) && StaleKept(n, old(dlBuf[..]))
      ensures Shape() && View() == Next(l, frame)
    {
      ghost var rest := l.unread[Fresh(l, frame)..];
      n := TakeFresh(n0, l.unread, Fresh(l, frame));
      Deplete(rest);
    }

    /** Gather a frame of downlink speech. */
    method Gather(ghost l: Line) returns (n: nat)
      requires Shape() && l == View()
      modifies this`scratchBuf, this`scratchSize, this`outBuf, this`outReadOffset, this`waiting, this`memLeak, dlBuf
      ensures n <= frame && dlBuf[..n] == Gathered(l, frame) && StaleKept(n, old(dlBuf[..]))
      ensures Shape() && View() == Next(l, frame)
    {
      n := TakeScratch();
      if n < frame {
        n := GatherFresh(n, l);
      }
    }

    /** Gathering keeps all that was given to the writer's side. */
    method GatherKept(ghost l: Line) returns (n: nat)
      requires Valid() && l == View()
      modifies this`scratchBuf, this`scratchSize, this`outBuf, this`outReadOffset, this`waiting, this`memLeak,
        this`taken, dlBuf
      ensures Valid() && n <= frame && View() == Next(l, frame)
      ensures dlBuf[..n] == Gathered(l, frame) && taken == old(taken) + dlBuf[..n] && StaleKept(n, old(dlBuf[..]))
    {
      ghost var f, next := Gathered(l, frame), Next(l, frame);
      TakenConserves(taken, l, frame, given);
      n := Gather(l);
      StillConserved(f, next);
      taken := taken + f;
    }

    lemma StillConserved(f: seq<Byte>, l: Line)
      requires Shape() && View() == l && (taken + f) + (l.scratch + l.unread) == given
      ensures (taken + f) + (Scratch() + outBuf[outReadOffset..]) == given
    {
    }

    /** The buffer part of applyUplinkEcns: gather a frame, then pad it over what was in the buffer. */
    method ApplyUplink() returns (n: nat)
      requires Valid()
      modifies this, dlBuf
      ensures Valid() && given == old(given)
      ensures View() == Next(old(View()), frame) && taken == old(taken) + Gathered(old(View()), frame)
      ensures n == |Gathered(old(View()), frame)| <= frame
      ensures dlBuf[..frame] == Padded(Gathered(old(View()), frame), old(dlBuf[..frame]))
    {
      ghost var l, before := View(), dlBuf[..];
      n := GatherKept(l);
      Pad(n, before);
      assert before[..frame] == old(dlBuf[..frame]);
    }

    /** The in-place conversion to stereo of n 16-bit samples, from the last one down. */
    static method ToStereo(dlBuf: array<int>, n: nat)
      requires 2 * n <= dlBuf.Length
      modifies dlBuf
      ensures forall k :: 0 <= k < 2 * n ==> dlBuf[k] == old(dlBuf[k / 2])
    {
      var i := n - 1;
      while i >= 0
        invariant -1 <= i < n
        invariant forall k :: 0 <= k <= i ==> dlBuf[k] == old(dlBuf[k])
        invariant forall k :: 2 * (i + 1) <= k < 2 * n ==> dlBuf[k] == old(dlBuf[k / 2])
      {
        ghost var before := dlBuf[..];
        dlBuf[i * 2] := dlBuf[i];
        dlBuf[i * 2 + 1] := dlBuf[i];
        assert before[i] == old(dlBuf[i]) && dlBuf[2 * i] == dlBuf[2 * i + 1] == before[i];
        assert forall k :: 2 * (i + 1) <= k < 2 * n ==> dlBuf[k] == before[k];
        i := i - 1;
      }
    }
  }

  // ----- a run

  /** A write of one byte: the padding wipes it out, and leaves the last byte of the frame as it was. */
  method MisplacedPadding(d: Downlink, x: Byte) returns (n: nat, last: Byte)
    requires d.Valid() && !d.waiting && d.frame == 4 && d.Scratch() == []
    modifies d, d.dlBuf
    ensures n == 1 && d.taken == old(d.taken) + [x]
    ensures last == old(d.dlBuf[3]) && d.dlBuf[..4] == [0, 0, 0, last]
  {
    last := d.dlBuf[3];
    d.WriteDownlink([x]);
    ghost var stale := d.dlBuf[..4];
    assert Gathered(Line([], [x], true), 4) == [x];
    n := d.ApplyUplink();
    assert d.dlBuf[..4] == [] + Zeros(3) + stale[3..];
  }
}
