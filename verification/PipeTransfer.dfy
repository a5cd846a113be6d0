/**
 How the XRootD plugin gets the data of a dataset from the child process that reads it: first
 the size, then the bytes, through a pipe of bounded capacity; and how the data is cut into
 chunks for the response.
 Source: H5PluginHandle.cc, ProcessReq.
 */
module PipeTransfer {

  import opened Numbers
  import opened Texts

  // ----- The size as it travels: eight bytes, least significant first -----

  function SizeBytes(n: nat, width: nat): (s: seq<Byte>)
    ensures |s| == width
  {
    if width == 0 then [] else [n % 256] + SizeBytes(n / 256, width - 1)
  }

  function SizeOf(s: seq<Byte>): nat {
    if s == [] then 0 else s[0] as int + 256 * SizeOf(s[1..])
  }

  lemma {:induction false} SizeComesBack(n: nat, width: nat)
    requires n < Pow256(width)
    ensures SizeOf(SizeBytes(n, width)) == n
  {
    if width > 0 {
      SizeComesBack(n / 256, width - 1);
      assert SizeBytes(n, width)[1..] == SizeBytes(n / 256, width - 1);
    }
  }

  // ----- The two processes -----

  datatype Child = ToSendSize | Sending(written: nat) | Exited
  datatype Parent = ToReadSize | Reading(size: nat, got: seq<Byte>) | Finished(data: seq<Byte>)

  datatype State = State(child: Child, pipe: seq<Byte>, parent: Parent)

  datatype Step = SendSize | Send(count: nat) | Exit | ReadSize | Receive(count: nat) | Finish

  const START := State(ToSendSize, [], ToReadSize)
  const HEADER: nat := 8

  // A write of `count` bytes fits in the pipe; a read of `count` bytes finds them there. Both
  // move at least one byte. The eight bytes of the size are written and read at once.
  predicate Enabled(data: seq<Byte>, capacity: nat, s: State, step: Step) {
    match step
    case SendSize => s.child == ToSendSize && |s.pipe| + HEADER <= capacity
    case Send(n) => s.child.Sending? && 0 < n <= |data| - s.child.written && |s.pipe| + n <= capacity
    case Exit => s.child.Sending? && s.child.written == |data|
    case ReadSize => s.parent == ToReadSize && |s.pipe| >= HEADER
    case Receive(n) => s.parent.Reading? && 0 < n <= s.parent.size - |s.parent.got| && n <= |s.pipe|
    case Finish => s.parent.Reading? && |s.parent.got| >= s.parent.size
  }

  function Apply(data: seq<Byte>, capacity: nat, s: State, step: Step): State
    requires Enabled(data, capacity, s, step)
  {
    match step
    case SendSize => s.(child := Sending(0), pipe := s.pipe + SizeBytes(|data|, HEADER))
    case Send(n) => s.(child := Sending(s.child.written + n),
                       pipe := s.pipe + data[s.child.written..s.child.written + n])
    case Exit => s.(child := Exited)
    case ReadSize => s.(pipe := s.pipe[HEADER..], parent := Reading(SizeOf(s.pipe[..HEADER]), []))
    case Receive(n) => s.(pipe := s.pipe[n..], parent := s.parent.(got := s.parent.got + s.pipe[..n]))
    case Finish => s.(parent := Finished(s.parent.got))
  }

  // The bytes the child has put into the pipe so far.
  function Sent(data: seq<Byte>, s: State): seq<Byte>
    requires s.child.Sending? ==> s.child.written <= |data|
  {
    match s.child
    case ToSendSize => []
    case Sending(n) => SizeBytes(|data|, HEADER) + data[..n]
    case Exited => SizeBytes(|data|, HEADER) + data
  }

  // The bytes the parent has taken out.
  function Taken(data: seq<Byte>, s: State): seq<Byte> {
    match s.parent
    case ToReadSize => []
    case Reading(_, got) => SizeBytes(|data|, HEADER) + got
    case Finished(got) => SizeBytes(|data|, HEADER) + got
  }

  // What was written is what was read followed by what is in the pipe; the parent knows the
  // right size and, once finished, has the data.
  predicate Inv(data: seq<Byte>, capacity: nat, s: State) {
    && |s.pipe| <= capacity
    && (s.child.Sending? ==> s.child.written <= |data|)
    && Sent(data, s) == Taken(data, s) + s.pipe
    && (s.parent.Reading? ==> s.parent.size == |data| >= |s.parent.got|)
    && (s.parent.Finished? ==> s.parent.data == data)
  }

  lemma SendKeeps(data: seq<Byte>, capacity: nat, s: State, n: nat)
    requires Inv(data, capacity, s) && Enabled(data, capacity, s, Send(n))
    ensures Inv(data, capacity, Apply(data, capacity, s, Send(n)))
  {
    hide SizeBytes;
    var h, w := SizeBytes(|data|, HEADER), s.child.written;
    Splice(h, data, w, w + n);
    assert Taken(data, s) + (s.pipe + data[w..w + n]) == Taken(data, s) + s.pipe + data[w..w + n];
  }

  lemma Splice(h: seq<Byte>, data: seq<Byte>, i: nat, j: nat)
    requires i <= j <= |data|
    ensures h + data[..j] == (h + data[..i]) + data[i..j]
  {
  }

  lemma ReadSizeKeeps(data: seq<Byte>, capacity: nat, s: State)
    requires |data| < Pow256(HEADER)
    requires Inv(data, capacity, s) && Enabled(data, capacity, s, ReadSize)
    ensures Inv(data, capacity, Apply(data, capacity, s, ReadSize))
  {
    hide Pow256, SizeBytes, SizeOf;
    var h := SizeBytes(|data|, HEADER);
    assert Sent(data, s) == s.pipe;
    assert s.pipe[..HEADER] == Sent(data, s)[..HEADER] == h;
    SizeComesBack(|data|, HEADER);
    assert h + [] + s.pipe[HEADER..] == s.pipe;
  }

  lemma ReceiveKeeps(data: seq<Byte>, capacity: nat, s: State, n: nat)
    requires Inv(data, capacity, s) && Enabled(data, capacity, s, Receive(n))
    ensures Inv(data, capacity, Apply(data, capacity, s, Receive(n)))
  {
    hide SizeBytes;
    Reassociate(SizeBytes(|data|, HEADER), s.parent.got, s.pipe, n);
  }

  lemma Reassociate(h: seq<Byte>, got: seq<Byte>, pipe: seq<Byte>, n: nat)
    requires n <= |pipe|
    ensures h + got + pipe == h + (got + pipe[..n]) + pipe[n..]
  {
  }

  lemma StepKeeps(data: seq<Byte>, capacity: nat, s: State, step: Step)
    requires |data| < Pow256(HEADER)
    requires Inv(data, capacity, s) && Enabled(data, capacity, s, step)
    ensures Inv(data, capacity, Apply(data, capacity, s, step))
  {
    hide Pow256, SizeBytes, SizeOf;
    match step
    case SendSize =>
      assert SizeBytes(|data|, HEADER) + data[..0] == SizeBytes(|data|, HEADER);
    case Send(n) => SendKeeps(data, capacity, s, n);
    case Exit => assert data[..|data|] == data;
    case ReadSize => ReadSizeKeeps(data, capacity, s);
    case Receive(n) => ReceiveKeeps(data, capacity, s, n);
    case Finish => GotAll(data, capacity, s);
  }

  // A parent that has as many bytes as the child has announced has the child's data.
  lemma GotAll(data: seq<Byte>, capacity: nat, s: State)
    requires Inv(data, capacity, s) && s.parent.Reading? && |s.parent.got| == |data|
    ensures s.parent.got == data
  {
    var h := SizeBytes(|data|, HEADER);
    var sent := Sent(data, s);
    assert |sent| >= |h| + |data|;
    assert sent == h + data;
    assert sent[HEADER..][..|data|] == data;
    assert sent[HEADER..][..|data|] == s.parent.got;
  }

  // ----- Every run ends, with the data on the other side -----

  predicate Over(s: State) {
    s.child == Exited && s.parent.Finished?
  }

  // As long as the transfer is not over, one of the two processes can move: a full pipe can be
  // read from, an empty one written to.
  lemma SomebodyCanMove(data: seq<Byte>, capacity: nat, s: State) returns (step: Step)
    requires Inv(data, capacity, s) && !Over(s) && capacity >= HEADER
    ensures Enabled(data, capacity, s, step)
  {
    if s.child == ToSendSize {
      assert s.pipe == [];
      step := SendSize;
    } else if s.parent == ToReadSize {
      assert Sent(data, s) == s.pipe;
      step := ReadSize;
    } else if s.parent.Reading? && |s.parent.got| == |data| {
      step := Finish;
    } else if s.child.Sending? && s.child.written == |data| {
      step := Exit;
    } else if s.pipe != [] {
      assert |Sent(data, s)| <= HEADER + |data|;
      step := Receive(1);
    } else {
      step := Send(1);
    }
  }

  function Work(data: seq<Byte>, s: State): int {
    (match s.child case ToSendSize => |data| + 2 case Sending(n) => |data| - n + 1 case Exited => 0) +
    (match s.parent case ToReadSize => |data| + 2 case Reading(_, got) => |data| - |got| + 1 case Finished(_) => 0)
  }

  predicate RunFrom(data: seq<Byte>, capacity: nat, s: State, steps: seq<Step>)
    decreases |steps|
  {
    steps == [] ||
    (Enabled(data, capacity, s, steps[0]) &&
     RunFrom(data, capacity, Apply(data, capacity, s, steps[0]), steps[1..]))
  }

  function End(data: seq<Byte>, capacity: nat, s: State, steps: seq<Step>): State
    requires RunFrom(data, capacity, s, steps)
    decreases |steps|
  {
    if steps == [] then s else End(data, capacity, Apply(data, capacity, s, steps[0]), steps[1..])
  }

  lemma {:induction false} RunKeeps(data: seq<Byte>, capacity: nat, s: State, steps: seq<Step>)
    requires |data| < Pow256(HEADER)
    requires Inv(data, capacity, s) && RunFrom(data, capacity, s, steps)
    ensures Inv(data, capacity, End(data, capacity, s, steps))
    ensures |steps| + Work(data, End(data, capacity, s, steps)) <= Work(data, s)
    decreases |steps|
  {
    hide Pow256, Sent, Taken;
    if steps != [] {
      StepKeeps(data, capacity, s, steps[0]);
      RunKeeps(data, capacity, Apply(data, capacity, s, steps[0]), steps[1..]);
    }
  }

  // Whatever the interleaving and however the writes and reads are split: nothing is lost or
  // reordered on the way, no run is longer than twice the data, and a run that cannot go on is
  // over, with the parent holding exactly the child's data.
  lemma TransferArrives(data: seq<Byte>, capacity: nat, steps: seq<Step>)
    requires |data| < Pow256(HEADER) && capacity >= HEADER
    requires RunFrom(data, capacity, START, steps)
    ensures var s := End(data, capacity, START, steps);
            && (s.child.Sending? ==> s.child.written <= |data|)
            && Sent(data, s) == Taken(data, s) + s.pipe
            && |steps| <= 2 * |data| + 4
            && ((forall step :: !Enabled(data, capacity, s, step)) ==> Over(s) && s.parent.data == data)
  {
    hide Pow256;
    RunKeeps(data, capacity, START, steps);
    var s := End(data, capacity, START, steps);
    if !Over(s) {
      var step := SomebodyCanMove(data, capacity, s);
    }
  }

  // ----- The chunks of the response -----

  lemma JoinNext(chunks: seq<seq<Byte>>, data: seq<Byte>, i: nat, j: nat)
    requires i <= j <= |data| && Joined(chunks) == data[..i]
    ensures Joined(chunks + [data[i..j]]) == data[..j]
  {
    JoinedLast(chunks, data[i..j]);
    assert data[..i] + data[i..j] == data[..j];
  }

  lemma Offsets(n: nat, max: nat, i: nat)
    requires max > 0 && i <= n / max
    ensures i * max <= n
    ensures i < n / max ==> i * max + max == (i + 1) * max <= n
    ensures n - n / max * max == n % max
  {
    var q, r := n / max, n % max;
    assert n == q * max + r;
    assert i * max <= q * max;
    assert i < q ==> (i + 1) * max <= q * max;
  }

  // One full chunk after the other and then the rest, which is empty when the size is a
  // multiple of the chunk size: then, and only then, the response has an empty chunk before
  // the one that is sent to end it.
  method SendChunks(data: seq<Byte>, max: nat) returns (chunks: seq<seq<Byte>>)
    requires max > 0
    ensures Joined(chunks) == data
    ensures |chunks| == |data| / max + 1
    ensures forall k :: 0 <= k < |chunks| - 1 ==> |chunks[k]| == max
    ensures [] in chunks <==> |data| % max == 0
  {
    hide Joined;
    chunks := [];
    var full := |data| / max;
    var numChunks := full + 1;
    var i := 0;
    ghost var done := 0;
    JoinedNothing(data);
    while i < numChunks
      invariant i <= numChunks && |chunks| == i
      invariant done == if i <= full then i * max else |data|
      invariant forall k :: 0 <= k < i && k < full ==> |chunks[k]| == max
      invariant i == numChunks ==> |chunks[full]| == |data| % max
      invariant done <= |data| && Joined(chunks) == data[..done]
    {
      Offsets(|data|, max, i);
      var offset := i * max;
      var chunkSize := if i == numChunks - 1 then |data| - offset else max;
      JoinNext(chunks, data, offset, offset + chunkSize);
      chunks := chunks + [data[offset..offset + chunkSize]];
      i, done := i + 1, offset + chunkSize;
    }
    assert data[..|data|] == data;
    assert |data| % max == 0 ==> chunks[full] == [];
  }

  lemma JoinedNothing(data: seq<Byte>)
    ensures Joined<Byte>([]) == data[..0]
  {
  }
}
