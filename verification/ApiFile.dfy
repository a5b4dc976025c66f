/**
 A remote file read over the cat command: a position and an open response
 stream. Short forward seeks skip bytes of the stream; other seeks open a new one.
 */
module ApiFile {
  import opened CatCommand

  const FORWARD_SEEK_LIMIT: int := 0x4000

  datatype Stream = Closed | Open(rest: Bytes)

  datatype Whence = Start | Current | End

  datatype Handle = Handle(at: int, stream: Stream)

  /**
   One call and what the transport does during it: `delivered` bounds the bytes
   that arrive before an error or a short read, `cut` says whether an error comes
   with them, `eager` whether the end is told along with the last bytes or only by
   the next read, and `refused` whether a new request is refused.
   */
  datatype Call =
    | Reads(size: nat, delivered: nat, cut: bool, eager: bool)
    | Seeks(offset: int, whence: Whence, delivered: nat, refused: bool)

  /** What a read reports next to the bytes. */
  datatype Ending = NoError | EndOfFile | Cut

  /** `Fails` on a closed stream stands for the crash on using a response that is not there. */
  datatype Reply = ReadOk(data: Bytes, ending: Ending) | SeekOk(at: int) | Fails

  function Min(a: int, b: int): int {
    if a <= b then a else b
  }

  /** How a read of `got` bytes ends, when `left` are left behind them. */
  function EndingOf(call: Call, got: nat, left: nat): Ending
    requires call.Reads?
  {
    if call.cut then Cut
    else if left == 0 && ((got == 0 && call.size > 0) || call.eager) then EndOfFile
    else NoError
  }

  function Target(content: Bytes, h: Handle, offset: int, whence: Whence): int {
    match whence
    case Start => offset
    case Current => h.at + offset
    case End => |content| + offset
  }

  /** The handle after a new request from position `at`, which the server refuses if negative. */
  function Requested(content: Bytes, at: int, refused: bool): Handle {
    if at < 0 || refused then Handle(at, Closed) else Handle(at, Open(Slice(content, at, -1)))
  }

  predicate Skips(h: Handle, target: int) {
    h.at < target < h.at + FORWARD_SEEK_LIMIT
  }

  /** Drops up to `n` bytes of the stream, moving the position along. */
  function Skipped(h: Handle, n: nat): Handle
    requires h.stream.Open? && n <= |h.stream.rest|
  {
    Handle(h.at + n, Open(h.stream.rest[n..]))
  }

  function Serve(content: Bytes, h: Handle, call: Call): (r: (Handle, Reply)) {
    match call
    case Reads(size, delivered, _, _) =>
      if h.stream.Closed? then (h, Fails)
      else
        var n := Min(Min(size, delivered), |h.stream.rest|);
        (Skipped(h, n), ReadOk(h.stream.rest[..n], EndingOf(call, n, |h.stream.rest| - n)))
    case Seeks(offset, whence, delivered, refused) =>
      var target := Target(content, h, offset, whence);
      if target == h.at then (h, SeekOk(target))
      else if Skips(h, target) then
        if h.stream.Closed? then (h, Fails)
        else
          var n := Min(Min(target - h.at, delivered), |h.stream.rest|);
          (Skipped(h, n), if n == target - h.at then SeekOk(target) else Fails)
      else
        var h' := Requested(content, target, refused);
        (h', if h'.stream.Open? then SeekOk(target) else Fails)
  }

  /** The open stream is the rest of the file from the position on. */
  ghost predicate Synced(content: Bytes, h: Handle) {
    h.stream.Open? ==> h.at >= 0 && h.stream.rest == Slice(content, h.at, -1)
  }

  /** Every call keeps the stream at the position, whether it succeeds or not. */
  lemma ServeKeepsSync(content: Bytes, h: Handle, call: Call)
    requires Synced(content, h)
    ensures Synced(content, Serve(content, h, call).0)
  {
  }

  /** A local random-access file: a seek just sets the position. */
  function Plain(content: Bytes, at: int, call: Call): (int, Reply) {
    match call
    case Reads(size, delivered, _, _) =>
      if at < 0 then (at, Fails)
      else
        var data := Slice(content, at, Min(size, delivered));
        var ended := at + |data| >= |content| && (call.eager || (data == [] && size > 0));
        (at + |data|, ReadOk(data, if call.cut then Cut else if ended then EndOfFile else NoError))
    case Seeks(offset, Start, _, _) => (offset, SeekOk(offset))
    case Seeks(offset, Current, _, _) => (at + offset, SeekOk(at + offset))
    case Seeks(offset, End, _, _) => (|content| + offset, SeekOk(|content| + offset))
  }

  lemma ServeLikePlain(content: Bytes, h: Handle, call: Call)
    requires Synced(content, h) && Serve(content, h, call).1 != Fails
    ensures Serve(content, h, call).1 == Plain(content, h.at, call).1
    ensures Serve(content, h, call).0.at == Plain(content, h.at, call).0
    ensures h.stream.Open? ==> Serve(content, h, call).0.stream.Open?
  {
  }

  /** A successful seek answers with the new position, and that is the place asked for. */
  lemma SeekGoesThere(content: Bytes, h: Handle, offset: int, delivered: nat, refused: bool)
    requires Synced(content, h)
    ensures var (h', reply) := Serve(content, h, Seeks(offset, Start, delivered, refused));
            reply.SeekOk? ==> reply.at == h'.at == offset
    ensures var (h', reply) := Serve(content, h, Seeks(offset, Current, delivered, refused));
            reply.SeekOk? ==> reply.at == h'.at == h.at + offset
    ensures var (h', reply) := Serve(content, h, Seeks(offset, End, delivered, refused));
            reply.SeekOk? ==> reply.at == h'.at == |content| + offset
  {
  }

  /** A read gives the bytes at the position, as many as are wanted, arrive and are there, and tells how it ended. */
  lemma ReadGives(content: Bytes, h: Handle, size: nat, delivered: nat, cut: bool, eager: bool)
    requires Synced(content, h)
    ensures var (h', reply) := Serve(content, h, Reads(size, delivered, cut, eager));
            && (reply == Fails <==> h.stream.Closed?)
            && (h.stream.Open? ==>
                  && reply.ReadOk? && h'.at == h.at + |reply.data|
                  && (forall i :: 0 <= i < |reply.data| ==>
                        h.at + i < |content| && reply.data[i] == content[h.at + i])
                  && |reply.data| <= size && |reply.data| <= delivered
                  && (|reply.data| == size || |reply.data| == delivered || h'.at >= |content|)
                  && (reply.ending == Cut <==> cut)
                  && (reply.ending == EndOfFile <==>
                        !cut && h'.at >= |content| && (eager || (reply.data == [] && size > 0))))
  {
  }

  /** The end of the file is reported only there, and always when a read that wants bytes finds none. */
  lemma EndOfFileIsTheEnd(content: Bytes, h: Handle, call: Call)
    requires Synced(content, h) && h.stream.Open? && call.Reads? && !call.cut
    ensures var (h', reply) := Serve(content, h, call);
            && (reply.ending == EndOfFile ==> h'.at >= |content|)
            && (h.at >= |content| && call.size > 0 ==> reply == ReadOk([], EndOfFile))
  {
  }

  /**
   A seek fails where a local file would not in just these cases: a forward skip
   runs past the end of the file or loses the transport or has no stream, a new
   request is refused, or the position is negative.
   */
  lemma SeekSucceedsIff(content: Bytes, h: Handle, offset: int, whence: Whence, delivered: nat, refused: bool)
    requires Synced(content, h)
    ensures var base := match whence case Start => 0 case Current => h.at case End => |content|;
            var target := base + offset;
            var skips := h.at < target < h.at + 16384;
            Serve(content, h, Seeks(offset, whence, delivered, refused)).1.SeekOk? <==>
            (|| target == h.at
             || (skips && h.stream.Open? && target <= |content| && target - h.at <= delivered)
             || (!skips && target >= 0 && !refused))
  {
  }

  /** Seeking past the end fails within the forward-seek limit and succeeds beyond it. */
  lemma SeekPastEndExample(content: Bytes, delivered: nat)
    ensures var h := Requested(content, 0, false);
            && (0 < |content| + 1 < 16384 ==> Serve(content, h, Seeks(1, End, delivered, false)).1 == Fails)
            && Serve(content, h, Seeks(16384, End, delivered, false)).1 == SeekOk(|content| + 16384)
  {
  }

  /** After a refused request a seek to the same place succeeds, but nothing can be read there. */
  lemma NoOpWithoutStreamExample(content: Bytes, h: Handle)
    requires h == Requested(content, |content| + FORWARD_SEEK_LIMIT, true)
    ensures Serve(content, h, Seeks(0, Current, 0, false)) == (h, SeekOk(h.at))
    ensures forall size: nat, delivered: nat, cut, eager ::
              Serve(content, h, Reads(size, delivered, cut, eager)).1 == Fails
  {
  }

  /** The replies to a run of calls, and the handle at its end. */
  function ServeAll(content: Bytes, h: Handle, calls: seq<Call>): (r: (Handle, seq<Reply>))
    ensures |r.1| == |calls|
    decreases |calls|
  {
    if calls == [] then (h, [])
    else
      var (h', reply) := Serve(content, h, calls[0]);
      var (end, replies) := ServeAll(content, h', calls[1..]);
      (end, [reply] + replies)
  }

  function PlainAll(content: Bytes, at: int, calls: seq<Call>): (int, seq<Reply>)
    decreases |calls|
  {
    if calls == [] then (at, [])
    else
      var (at', reply) := Plain(content, at, calls[0]);
      var (end, replies) := PlainAll(content, at', calls[1..]);
      (end, [reply] + replies)
  }

  /**
   Over every run of successful calls the remote file answers as a local one:
   nobody can tell whether a seek skipped, did nothing or opened a new stream.
   */
  lemma {:induction false} RunsLikePlain(content: Bytes, h: Handle, calls: seq<Call>)
    requires Synced(content, h) && Fails !in ServeAll(content, h, calls).1
    ensures ServeAll(content, h, calls).1 == PlainAll(content, h.at, calls).1
    ensures ServeAll(content, h, calls).0.at == PlainAll(content, h.at, calls).0
    ensures Synced(content, ServeAll(content, h, calls).0)
    decreases |calls|
  {
    if calls != [] {
      var (h', reply) := Serve(content, h, calls[0]);
      assert ServeAll(content, h, calls).1[0] == reply;
      ServeKeepsSync(content, h, calls[0]);
      ServeLikePlain(content, h, calls[0]);
      assert ServeAll(content, h, calls).1[1..] == ServeAll(content, h', calls[1..]).1;
      RunsLikePlain(content, h', calls[1..]);
    }
  }

  class ApiFile {
    const content: Bytes
    var at: int
    var r: Stream

    ghost function State(): Handle
      reads this
    {
      Handle(at, r)
    }

    ghost predicate Valid()
      reads this
    {
      Synced(content, State())
    }

    /** Opens the file at its start. */
    constructor (content: Bytes)
      ensures this.content == content && Valid() && at == 0 && r.Open?
    {
      this.content := content;
      at := 0;
      r := Closed;
      new;
      var ok := Reset(false);
    }

    /** Drops the stream and asks the server for the file from the position on. */
    method Reset(refused: bool) returns (ok: bool)
      modifies this`r
      ensures State() == Requested(content, at, refused)
      ensures ok <==> r.Open?
      ensures Valid()
    {
      r := Closed;
      if at < 0 || refused {
        return false;
      }
      assert Joined([File(content)]) == content + Joined([File(content)][1..]);
      assert Joined([File(content)]) == content;
      var reply := Cat([File(content)], at, -1);
      r := Open(Outputs(reply.readers));
      ok := true;
    }

    method Read(size: nat, delivered: nat, cut: bool, eager: bool) returns (reply: Reply)
      requires Valid()
      modifies this
      ensures Valid()
      ensures (State(), reply) == Serve(content, old(State()), Reads(size, delivered, cut, eager))
    {
      var call := Reads(size, delivered, cut, eager);
      ServeKeepsSync(content, State(), call);
      if r.Closed? {
        return Fails;
      }
      var n := Min(Min(size, delivered), |r.rest|);
      reply := ReadOk(r.rest[..n], EndingOf(call, n, |r.rest| - n));
      r := Open(r.rest[n..]);
      if n > 0 {
        at := at + n;
      }
    }

    method Seek(offset: int, whence: Whence, delivered: nat, refused: bool) returns (reply: Reply)
      requires Valid()
      modifies this
      ensures Valid()
      ensures (State(), reply) == Serve(content, old(State()), Seeks(offset, whence, delivered, refused))
      ensures reply.SeekOk? ==>
                && (whence == Start ==> at == offset)
                && (whence == Current ==> at == old(at) + offset)
                && (whence == End ==> at == |content| + offset)
    {
      ServeKeepsSync(content, State(), Seeks(offset, whence, delivered, refused));
      var target := offset;
      match whence {
        case End => target := |content| + offset;
        case Current => target := at + offset;
        case Start =>
      }
      if at == target {
        return SeekOk(target);
      }
      if at < target && target - at < FORWARD_SEEK_LIMIT {
        if r.Closed? {
          return Fails;
        }
        var n := Min(Min(target - at, delivered), |r.rest|);
        r := Open(r.rest[n..]);
        reply := if n == target - at then SeekOk(target) else Fails;
        at := at + n;
        return;
      }
      at := target;
      var ok := Reset(refused);
      reply := if ok then SeekOk(at) else Fails;
    }

    /**
     Reads at an offset through a request of its own, leaving position and stream
     alone. A transport that gives up after `delivered` bytes may do so with an
     unexpected end, which is reported as the end of the file, or with another error.
     */
    method ReadAt(size: nat, off: int, refused: bool, delivered: nat, unexpectedEnd: bool)
      returns (reply: Reply)
      ensures off < 0 || refused ==> reply == Fails
      ensures off >= 0 && !refused ==>
                var whole := Slice(content, off, size);
                reply == ReadAtReply(whole, size, delivered, unexpectedEnd)
      ensures off >= 0 && !refused && reply.ending == NoError ==> reply.data == Slice(content, off, size)
      ensures off >= 0 && !refused ==>
                && (forall i :: 0 <= i < |reply.data| ==>
                      off + i < |content| && reply.data[i] == content[off + i])
                && |reply.data| <= size && |reply.data| <= delivered
                && (|reply.data| == size || |reply.data| == delivered || off + |reply.data| >= |content|)
                && (reply.ending == NoError <==> |reply.data| == size)
      ensures off >= 0 && !refused && delivered >= |Slice(content, off, size)| ==>
                (reply.ending == EndOfFile <==> off + size > |content| && size > 0)
      ensures off >= 0 && !refused ==>
                var whole := Slice(content, off, size);
                (reply.ending == EndOfFile && |reply.data| < |whole| <==> delivered < |whole| && unexpectedEnd)
    {
      if off < 0 || refused {
        return Fails;
      }
      assert Joined([File(content)]) == content + Joined([File(content)][1..]);
      assert Joined([File(content)]) == content;
      var response := Cat([File(content)], off, size);
      var body := Outputs(response.readers);
      reply := ReadAtReply(body, size, delivered, unexpectedEnd);
    }
  }

  /** The reply of a full read of `size` bytes from a response body. */
  function ReadAtReply(body: Bytes, size: nat, delivered: nat, unexpectedEnd: bool): Reply {
    var n := Min(Min(size, delivered), |body|);
    ReadOk(body[..n],
           if n == size then NoError else if n == |body| || unexpectedEnd then EndOfFile else Cut)
  }

  /** A connection that ends before the first byte reads as a file that is empty from there on. */
  method CutReadAtExample() returns (reply: Reply)
    ensures reply == ReadOk([], EndOfFile)
  {
    var file := new ApiFile([1, 2, 3]);
    assert Slice(file.content, 0, 2) == [1, 2];
    reply := file.ReadAt(2, 0, false, 0, true);
  }
}
