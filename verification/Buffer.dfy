/** coro_file's readers and coro_buffer, over a stream that answers each read with an arbitrary
    non-empty piece of what is left. */
module Buffer {
  import opened Scanner

  function Concat(parts: seq<string>): string {
    if parts == [] then "" else Concat(parts[..|parts| - 1]) + parts[|parts| - 1]
  }

  lemma ConcatNext(parts: seq<string>, s: string)
    ensures Concat(parts + [s]) == Concat(parts) + s
  {
  }

  lemma ConcatPrefix(parts: seq<string>, i: nat)
    requires i < |parts|
    ensures Concat(parts[..i + 1]) == Concat(parts[..i]) + parts[i]
  {
    assert parts[..i + 1] == parts[..i] + [parts[i]];
    ConcatNext(parts[..i], parts[i]);
  }

  /** string_join: appends the pieces to result, after adding up the length to reserve. */
  method StringJoin(result: string, parts: seq<string>) returns (joined: string, size: nat)
    ensures joined == result + Concat(parts) && size == |joined|
  {
    size := |result|;
    for i := 0 to |parts|
      invariant size == |result| + |Concat(parts[..i])|
    {
      ConcatPrefix(parts, i);
      size := size + |parts[i]|;
    }
    joined := result;
    for i := 0 to |parts|
      invariant joined == result + Concat(parts[..i])
    {
      ConcatPrefix(parts, i);
      joined := joined + parts[i];
    }
    assert parts[..|parts|] == parts;
  }

  class Consumer {
    var got: string

    constructor ()
      ensures got == ""
    {
      got := "";
    }

    method Accept(s: string)
      modifies this
      ensures got == old(got) + s
    {
      got := got + s;
    }
  }

  function Min(a: nat, b: nat): nat { if a < b then a else b }

  class CoroFile {
    var unread: string

    constructor (stream: string)
      ensures unread == stream
    {
      unread := stream;
    }

    /** read(s, length): at most length bytes, none only at the end of the stream (or for length 0). */
    method Read(length: nat) returns (s: string)
      modifies this
      ensures s + unread == old(unread) && |s| <= length
      ensures s == "" <==> length == 0 || old(unread) == ""
    {
      if length == 0 || unread == "" {
        s := "";
      } else {
        var n: nat :| 1 <= n && n <= length && n <= |unread|;
        s, unread := unread[..n], unread[n..];
      }
    }

    /** read_exact(nbytes, dst): stops early at the end of the stream. */
    method ReadExact(nbytes: nat, dst: string) returns (dst': string)
      modifies this
      ensures var n := Min(nbytes, |old(unread)|);
        dst' == dst + old(unread)[..n] && unread == old(unread)[n..]
    {
      dst' := dst;
      var left: nat := nbytes;
      while left > 0
        invariant dst' + unread == dst + old(unread)
        invariant |dst'| == |dst| + (nbytes - left) && left <= nbytes
      {
        var buf := Read(left);
        if |buf| == 0 {
          break;
        } else {
          dst' := dst' + buf;
          left := left - |buf|;
        }
      }
      Split(dst', unread, dst, old(unread));
    }

    /** read_exact(nbytes, consumer): loops until it has them all, so the stream must hold them. */
    method ReadExactInto(nbytes: nat, c: Consumer, blockSize: nat)
      requires nbytes <= |unread| && blockSize > 0
      modifies this, c
      ensures c.got == old(c.got) + old(unread)[..nbytes] && unread == old(unread)[nbytes..]
    {
      var left: nat := nbytes;
      while left > 0
        invariant left <= nbytes && left <= |unread|
        invariant c.got + unread == old(c.got) + old(unread)
        invariant |c.got| == |old(c.got)| + (nbytes - left)
      {
        var s := Read(Min(left, blockSize));
        left := left - |s|;
        c.Accept(s);
      }
      Split(c.got, unread, old(c.got), old(unread));
    }

    /** read_exact(nbytes, string_list) */
    method ReadExactList(nbytes: nat, dst: seq<string>, blockSize: nat) returns (dst': seq<string>)
      requires nbytes <= |unread| && blockSize > 0
      modifies this
      ensures Concat(dst') == Concat(dst) + old(unread)[..nbytes] && unread == old(unread)[nbytes..]
      ensures dst <= dst'
    {
      dst' := dst;
      var left: nat := nbytes;
      while left > 0
        invariant left <= nbytes && left <= |unread| && dst <= dst'
        invariant Concat(dst') + unread == Concat(dst) + old(unread)
        invariant |Concat(dst')| == |Concat(dst)| + (nbytes - left)
      {
        var s := Read(Min(left, blockSize));
        left := left - |s|;
        ConcatNext(dst', s);
        dst' := dst' + [s];
      }
      Split(Concat(dst'), unread, Concat(dst), old(unread));
    }
  }

  /** If a + b == c + d and a is the longer, b is what is left of d. */
  lemma Split(a: string, b: string, c: string, d: string)
    requires a + b == c + d && |a| >= |c|
    ensures |a| - |c| <= |d| && a == c + d[..|a| - |c|] && b == d[|a| - |c|..]
  {
    var n := |a| - |c|;
    assert |b| + n == |d|;
    assert a == (a + b)[..|a|] == (c + d)[..|a|] == c + d[..n];
    assert b == (a + b)[|a|..] == (c + d)[|a|..] == d[n..];
  }

  class CoroBuffer {
    const f: CoroFile
    var buffer: string

    constructor (file: CoroFile)
      ensures f == file && buffer == ""
    {
      f, buffer := file, "";
    }

    /** What has not been delivered yet: the buffer and then the unread stream. */
    function Remaining(): string
      reads this, f
    {
      buffer + f.unread
    }

    function Contents(): Source
      reads this, f
    {
      Source(buffer, f.unread)
    }

    /** (_buffer.size() == 0) && (_f->read (_buffer) == 0) */
    method Refill()
      modifies this, f
      ensures Remaining() == old(Remaining())
      ensures buffer == "" <==> Remaining() == ""
    {
      if |buffer| == 0 {
        buffer := f.Read(8192);
      }
    }

    /** The inner loop of get: scans the buffer from the count that the chunks before it (done)
        have left, and says at which character the delimiter is completed, if it is. */
    method Scan(ghost done: string, start: nat, delim: string)
      returns (found: bool, i: nat, matched: nat, ghost seen: string)
      requires delim != "" && start == State(done, delim) < |delim|
      ensures i <= |buffer| && SeenUpTo(seen, done, buffer, i) && State(seen, delim) < |delim|
      ensures if found then i < |buffer| && State(seen + [buffer[i]], delim) == |delim|
              else seen == done + buffer && matched == State(seen, delim)
    {
      i, matched, seen := 0, start, done;
      while i < |buffer|
        invariant i <= |buffer| && SeenUpTo(seen, done, buffer, i)
        invariant matched == State(seen, delim) < |delim|
      {
        StateNext(seen, buffer[i], delim);
        if buffer[i] == delim[matched] {
          matched := matched + 1;
          if matched == |delim| {
            return true, i, matched, seen;
          }
        } else {
          matched := 0;
        }
        SeenOneMore(seen, done, buffer, i);
        seen := seen + [buffer[i]];
        i := i + 1;
      }
      assert buffer[..|buffer|] == buffer;
      found := false;
    }

    /** One round of get's outer loop on a non-empty buffer: the piece that goes to the list is
        the line's last one, or the whole chunk. */
    method TakePiece(ghost stream: string, ghost done: string, start: nat, delim: string)
      returns (found: bool, piece: string, matched: nat)
      requires delim != "" && start == State(done, delim) < |delim| && buffer != ""
      requires stream == done + (buffer + f.unread)
      modifies this
      ensures piece != "" && |buffer| + |piece| == |old(buffer)|
      ensures if found then GetLine(stream, delim) == Line(done + piece, false, buffer + f.unread)
              else stream == done + piece + (buffer + f.unread) && matched == State(done + piece, delim) < |delim|
    {
      var i;
      ghost var seen;
      found, i, matched, seen := Scan(done, start, delim);
      if found {
        Found(stream, done, buffer, f.unread, seen, i, delim);
        piece := buffer[..i + 1];
        buffer := buffer[i + 1..];
      } else {
        Regroup(done, buffer, f.unread, |buffer|);
        piece := buffer;
        buffer := "";
      }
    }

    /** The next piece of the line, refilling the buffer first if it is empty; eof when there is
        nothing more. */
    method NextPiece(ghost stream: string, ghost done: string, start: nat, delim: string)
      returns (eof: bool, found: bool, piece: string, matched: nat)
      requires delim != "" && start == State(done, delim) < |delim|
      requires stream == done + Remaining()
      modifies this, f
      ensures eof ==> matched == start && Remaining() == "" && stream == done
      ensures !eof ==> |Remaining()| < |old(Remaining())|
      ensures !eof ==>
        if found then GetLine(stream, delim) == Line(done + piece, false, Remaining())
        else stream == done + piece + Remaining() && matched == State(done + piece, delim) < |delim|
    {
      Refill();
      if |buffer| == 0 {
        return true, false, "", start;
      }
      eof := false;
      found, piece, matched := TakePiece(stream, done, start, delim);
    }

    /** get(sl, delim): appends pieces to sl until they end with the delimiter (or the stream
        ends).  The match count survives from one chunk to the next. */
    method GetParts(sl: seq<string>, delim: string) returns (closed: bool, sl': seq<string>)
      requires delim != ""
      modifies this, f
      ensures var line := GetLine(old(Remaining()), delim);
        closed == line.closed && Concat(sl') == Concat(sl) + line.text && Remaining() == line.rest
      ensures sl <= sl'
    {
      ghost var stream, done := Remaining(), "";
      sl' := sl;
      var matched: nat := 0;
      while true
        invariant stream == done + Remaining() && Concat(sl') == Concat(sl) + done && sl <= sl'
        invariant matched == State(done, delim) < |delim|
        decreases |Remaining()|
      {
        var eof, found, piece;
        eof, found, piece, matched := NextPiece(stream, done, matched, delim);
        if eof {
          GetLineIs(stream, delim, 0);
          return true, sl';
        }
        Gathered(sl, sl', done, piece);
        sl' := sl' + [piece];
        if found {
          return false, sl';
        }
        done := done + piece;
      }
    }

    /** get(s, delim) */
    method Get(delim: string) returns (closed: bool, s: string)
      requires delim != ""
      modifies this, f
      ensures Line(s, closed, Remaining()) == GetLine(old(Remaining()), delim)
    {
      var sl, size;
      closed, sl := GetParts([], delim);
      s, size := StringJoin("", sl);
    }

    /** flush() */
    method Flush() returns (s: string)
      modifies this
      ensures s == old(buffer) && buffer == ""
    {
      s := buffer;
      buffer := "";
    }

    /** consume_buffer() */
    method ConsumeBuffer(c: Consumer) returns (bsize: nat)
      modifies this, c
      ensures bsize == |old(buffer)| && c.got == old(c.got) + old(buffer) && buffer == ""
    {
      bsize := |buffer|;
      if bsize > 0 {
        c.Accept(buffer);
        buffer := "";
      }
    }

    /** read_exact(nbytes, consumer) */
    method ReadExactInto(nbytes: nat, c: Consumer)
      requires nbytes <= |Remaining()|
      modifies this, f, c
      ensures c.got == old(c.got) + old(Remaining())[..nbytes] && Remaining() == old(Remaining())[nbytes..]
      ensures buffer == if nbytes < |old(buffer)| then old(buffer)[nbytes..] else ""
    {
      var bsize := |buffer|;
      if bsize > nbytes {
        c.Accept(buffer[..nbytes]);
        buffer := buffer[nbytes..];
      } else if bsize == nbytes {
        c.Accept(buffer);
        buffer := "";
      } else {
        var used := ConsumeBuffer(c);
        f.ReadExactInto(nbytes - used, c, 8000);
      }
    }

    /** read_exact(nbytes, s): appends to s the first nbytes, or all there are. */
    method ReadExact(nbytes: nat, s: string) returns (s': string)
      modifies this, f
      ensures var n := Min(nbytes, |old(Remaining())|);
        s' == s + old(Remaining())[..n] && Remaining() == old(Remaining())[n..]
      ensures buffer == if nbytes < |old(buffer)| then old(buffer)[nbytes..] else ""
    {
      var bsize := |buffer|;
      if bsize > nbytes {
        s' := s + buffer[..nbytes];
        buffer := buffer[nbytes..];
      } else if bsize == nbytes {
        s' := s + buffer;
        buffer := "";
      } else {
        s' := s + buffer;
        var left := nbytes - |buffer|;
        buffer := "";
        s' := f.ReadExact(left, s');
      }
    }

    /** read_to_eof() */
    method ReadToEof(c: Consumer, blockSize: nat)
      modifies this, f, c
      ensures c.got == old(c.got) + if blockSize > 0 then old(Remaining()) else old(buffer)
      ensures buffer == "" && (blockSize > 0 ==> f.unread == "") && (blockSize == 0 ==> f.unread == old(f.unread))
    {
      var _ := ConsumeBuffer(c);
      var block := f.Read(blockSize);
      while |block| > 0
        invariant buffer == "" && c.got + block + f.unread == old(c.got) + old(Remaining())
        invariant blockSize > 0 && block == "" ==> f.unread == ""
        invariant blockSize == 0 ==> block == "" && f.unread == old(f.unread)
        decreases |block| + |f.unread|
      {
        c.Accept(block);
        block := f.Read(blockSize);
      }
      Split(c.got, f.unread, old(c.got), old(Remaining()));
    }
  }

  /** seen is done followed by the first i characters of buffer. */
  predicate SeenUpTo(seen: string, done: string, buffer: string, i: nat) {
    i <= |buffer| && seen == done + buffer[..i]
  }

  lemma SeenOneMore(seen: string, done: string, buffer: string, i: nat)
    requires i < |buffer| && SeenUpTo(seen, done, buffer, i)
    ensures SeenUpTo(seen + [buffer[i]], done, buffer, i + 1)
  {
  }

  /** One more piece delivered. */
  lemma Gathered(sl: seq<string>, sl': seq<string>, done: string, piece: string)
    requires Concat(sl') == Concat(sl) + done
    ensures Concat(sl' + [piece]) == Concat(sl) + (done + piece)
  {
  }

  lemma Found(stream: string, done: string, buffer: string, unread: string, seen: string, i: nat, delim: string)
    requires delim != "" && stream == done + (buffer + unread) && i < |buffer| && SeenUpTo(seen, done, buffer, i)
    requires State(seen, delim) < |delim| == State(seen + [buffer[i]], delim)
    ensures GetLine(stream, delim) == Line(done + buffer[..i + 1], false, buffer[i + 1..] + unread)
  {
    SeenOneMore(seen, done, buffer, i);
    GetLineSplits(seen, buffer[i], buffer[i + 1..] + unread, delim);
    Regroup(done, buffer, unread, i + 1);
  }

  lemma Regroup(a: string, b: string, c: string, k: nat)
    requires k <= |b|
    ensures a + (b + c) == a + b[..k] + (b[k..] + c)
  {
  }

  // ---------------------------------------------------------------- whole sessions

  /** Two readers of the same remaining bytes, cut into chunks in any two ways and buffered to any
      two points, deliver the same line, the same flag, and leave the same bytes. */
  method ChunkingDoesNotMatter(a: CoroBuffer, b: CoroBuffer, delim: string)
    returns (x: (bool, string), y: (bool, string))
    requires delim != "" && a != b && a.f != b.f && a.Remaining() == b.Remaining()
    modifies a, b, a.f, b.f
    ensures x == y && a.Remaining() == b.Remaining()
  {
    var closed, s := a.Get(delim);
    x := (closed, s);
    closed, s := b.Get(delim);
    y := (closed, s);
  }

  /** Reads count lines. */
  method GetMany(b: CoroBuffer, delim: string, count: nat) returns (lines: seq<(string, bool)>)
    requires delim != ""
    modifies b, b.f
    ensures |lines| == count
    ensures forall i | 0 <= i < count ::
      var l := GetLines(old(b.Remaining()), delim, count)[i]; lines[i] == (l.text, l.closed)
  {
    if count == 0 {
      return [];
    }
    var closed, s := b.Get(delim);
    var more := GetMany(b, delim, count - 1);
    lines := [(s, closed)] + more;
  }

  /** End to end: records framed, cut up arbitrarily by the stream, and read back. */
  method ReadRecords(records: seq<string>, delim: string) returns (lines: seq<(string, bool)>)
    requires delim != "" && forall r <- records :: delim[0] !in r
    ensures |lines| == |records| + 1 && lines[|records|] == ("", true)
    ensures forall i | 0 <= i < |records| :: lines[i] == (records[i] + delim, false)
  {
    var file := new CoroFile(Frame(records, delim));
    var b := new CoroBuffer(file);
    assert b.Remaining() == Frame(records, delim);
    lines := GetMany(b, delim, |records| + 1);
    RoundTrip(records, delim);
  }

  datatype Op = OpGet(delim: string) | OpFlush | OpConsume | OpReadExact(n: nat) | OpReadExactInto(n: nat)
              | OpReadToEof(block: nat)

  /** What a caller gets: bytes, and from get also whether the stream has closed. */
  datatype Out = Out(text: string, closed: bool)

  datatype Source = Source(buffer: string, unread: string)
  {
    function Remaining(): string { buffer + unread }
  }

  /** A call that the source completes (the others never return, or have no meaning). */
  predicate Returns(op: Op, s: Source) {
    match op
    case OpGet(delim) => delim != ""
    case OpReadExactInto(n) => n <= |s.Remaining()|
    case _ => true
  }

  /** The first n undelivered bytes, or all there are; what is left of the buffer stays in it. */
  predicate TakesFirst(n: nat, s: Source, text: string, s': Source) {
    var k := Min(n, |s.Remaining()|);
    && text == s.Remaining()[..k] && s'.Remaining() == s.Remaining()[k..]
    && s'.buffer == if n < |s.buffer| then s.buffer[n..] else ""
  }

  predicate TakesBuffer(s: Source, text: string, s': Source) {
    text == s.buffer && s' == Source("", s.unread)
  }

  /** What each call delivers and leaves.  Only where get leaves the rest, in the buffer or in the
      stream, depends on how the stream was cut up. */
  predicate Meets(op: Op, s: Source, out: Out, s': Source) {
    match op
    case OpGet(delim) => delim != "" && Line(out.text, out.closed, s'.Remaining()) == GetLine(s.Remaining(), delim)
    case OpFlush => !out.closed && TakesBuffer(s, out.text, s')
    case OpConsume => !out.closed && TakesBuffer(s, out.text, s')
    case OpReadExact(n) => !out.closed && TakesFirst(n, s, out.text, s')
    case OpReadExactInto(n) => !out.closed && TakesFirst(n, s, out.text, s')
    case OpReadToEof(block) =>
      && !out.closed
      && if block == 0 then TakesBuffer(s, out.text, s') else out.text == s.Remaining() && s' == Source("", "")
  }

  lemma MeetsConserves(op: Op, s: Source, out: Out, s': Source)
    requires Meets(op, s, out, s')
    ensures out.text + s'.Remaining() == s.Remaining()
  {
    if op.OpGet? { GetLineConserves(s.Remaining(), op.delim); }
  }

  method Perform(b: CoroBuffer, op: Op) returns (out: Out)
    requires Returns(op, b.Contents())
    modifies b, b.f
    ensures Meets(op, old(b.Contents()), out, b.Contents())
  {
    var c := new Consumer();
    match op
    case OpGet(delim) =>
      var closed, s := b.Get(delim);
      out := Out(s, closed);
    case OpFlush =>
      var s := b.Flush();
      out := Out(s, false);
    case OpConsume =>
      var _ := b.ConsumeBuffer(c);
      out := Out(c.got, false);
    case OpReadExact(n) =>
      var s := b.ReadExact(n, "");
      out := Out(s, false);
    case OpReadExactInto(n) =>
      b.ReadExactInto(n, c);
      out := Out(c.got, false);
    case OpReadToEof(block) =>
      b.ReadToEof(c, block);
      out := Out(c.got, false);
  }

  function Delivered(outs: seq<Out>): string {
    if outs == [] then "" else Delivered(outs[..|outs| - 1]) + outs[|outs| - 1].text
  }

  lemma DeliveredNext(outs: seq<Out>, out: Out, op: Op, s: Source, s': Source, stream: string)
    requires Delivered(outs) + s.Remaining() == stream && Meets(op, s, out, s')
    ensures Delivered(outs + [out]) + s'.Remaining() == stream
  {
    hide Meets;
    MeetsConserves(op, s, out, s');
    assert (outs + [out])[..|outs|] == outs;
  }

  /** The calls a session makes, with what each was given and left. */
  predicate Served(ops: seq<Op>, outs: seq<Out>, states: seq<Source>) {
    && |outs| <= |ops| && |states| == |outs| + 1
    && forall i | 0 <= i < |outs| :: Meets(ops[i], states[i], outs[i], states[i + 1])
  }

  /** Any sequence of calls, up to one that never returns: each delivers what it should of what the
      ones before it left.  Conservation: the bytes delivered, the buffer and the unread stream
      together are always the original stream. */
  method Session(stream: string, ops: seq<Op>) returns (outs: seq<Out>, ghost states: seq<Source>, b: CoroBuffer)
    ensures Served(ops, outs, states) && states[0] == Source("", stream) && states[|outs|] == b.Contents()
    ensures |outs| < |ops| ==>
      match ops[|outs|]
      case OpGet(delim) => delim == ""
      case OpReadExactInto(n) => n > |b.buffer| + |b.f.unread|
      case _ => false
    ensures Delivered(outs) + b.buffer + b.f.unread == stream
  {
    hide Meets;
    var file := new CoroFile(stream);
    b := new CoroBuffer(file);
    outs, states := [], [b.Contents()];
    for i := 0 to |ops|
      invariant fresh(b) && fresh(b.f) && i == |outs|
      invariant Served(ops, outs, states) && states[0] == Source("", stream) && states[|outs|] == b.Contents()
      invariant Delivered(outs) + b.Remaining() == stream
    {
      if !Returns(ops[i], b.Contents()) { return; }
      ghost var before := b.Contents();
      var out := Perform(b, ops[i]);
      DeliveredNext(outs, out, ops[i], before, b.Contents(), stream);
      outs, states := outs + [out], states + [b.Contents()];
    }
  }
}
