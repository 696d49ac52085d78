/** app/runner.py, _StdoutReader: line framing of the agent's stdout, read in chunks of any size. */
module StdoutFraming {
  import opened Sequences

  newtype byte = b: int | 0 <= b < 256

  const NEWLINE: byte := 10

  /** One turn of the read loop: select timed out or failed, os.read returned a chunk (empty at end of file) or
      failed. */
  datatype Read = NotReady | SelectError | Chunk(data: seq<byte>) | OsError

  predicate Ends(r: Read) {
    r.SelectError? || r.OsError? || (r.Chunk? && r.data == [])
  }

  /** The bytes delivered before the stream ends. */
  function Stream(turns: seq<Read>): seq<byte> {
    if turns == [] || Ends(turns[0]) then []
    else (if turns[0].Chunk? then turns[0].data else []) + Stream(turns[1..])
  }

  predicate Ended(turns: seq<Read>) {
    turns != [] && (Ends(turns[0]) || Ended(turns[1..]))
  }

  /** The stream ends with a failing select, which skips the last line. */
  predicate Dropped(turns: seq<Read>) {
    turns != [] && (if Ends(turns[0]) then turns[0].SelectError? else Dropped(turns[1..]))
  }

  /** The stream is the data of the chunks up to the first turn that ends it, which decides whether the last line is
      dropped. */
  lemma {:induction false} StreamContinues(a: seq<Read>, b: seq<Read>)
    ensures Stream(a + b) == if Ended(a) then Stream(a) else Stream(a) + Stream(b)
    ensures Ended(a + b) <==> Ended(a) || Ended(b)
    ensures Dropped(a + b) <==> if Ended(a) then Dropped(a) else Dropped(b)
  {
    if a == [] {
      assert a + b == b;
    } else {
      assert (a + b)[1..] == a[1..] + b;
      StreamContinues(a[1..], b);
    }
  }

  lemma OneTurn(r: Read)
    ensures Stream([r]) == if r.Chunk? then r.data else []
    ensures Ended([r]) <==> r == SelectError || r == OsError || r == Chunk([])
    ensures Dropped([r]) <==> r == SelectError
  {
    assert [r][1..] == [];
  }

  predicate OneLine(s: seq<byte>) {
    forall i | 0 <= i < |s| :: s[i] != NEWLINE
  }

  lemma NextTurn(turns: seq<Read>, i: nat, got: seq<byte>)
    requires i <= |turns|
    ensures i < |turns| && !Ends(turns[i]) ==>
              Ended(turns[i..]) == Ended(turns[i + 1..]) && Dropped(turns[i..]) == Dropped(turns[i + 1..])
    ensures i < |turns| && turns[i].NotReady? ==> Stream(turns[i..]) == Stream(turns[i + 1..])
    ensures i < |turns| && !Ends(turns[i]) && turns[i].Chunk? ==>
              got + Stream(turns[i..]) == got + turns[i].data + Stream(turns[i + 1..])
    ensures i == |turns| || Ends(turns[i]) ==> got + Stream(turns[i..]) == got && Ended(turns[i..]) == (i < |turns|)
    ensures i < |turns| && Ends(turns[i]) ==> Dropped(turns[i..]) == turns[i].SelectError?
  {
  }

  /** bytes.split(b"\n", 1): the position of the first newline. */
  function FirstNewline(s: seq<byte>): (i: nat)
    requires NEWLINE in s
    ensures i < |s| && s[i] == NEWLINE && forall j | 0 <= j < i :: s[j] != NEWLINE
  {
    if s[0] == NEWLINE then 0 else 1 + FirstNewline(s[1..])
  }

  /** The newline-terminated lines of a stream, without their newlines. */
  function Complete(s: seq<byte>): seq<seq<byte>>
    decreases |s|
  {
    if NEWLINE !in s then []
    else [s[..FirstNewline(s)]] + Complete(s[FirstNewline(s) + 1..])
  }

  /** What follows the last newline. */
  function Rest(s: seq<byte>): seq<byte>
    decreases |s|
  {
    if NEWLINE !in s then s else Rest(s[FirstNewline(s) + 1..])
  }

  /** bytes.strip() leaves nothing. */
  predicate Blank(s: seq<byte>) {
    forall b | b in s :: b == 32 || 9 <= b <= 13
  }

  /** The lines of a whole stream; an unterminated last line counts only if it is not blank. */
  function Lines(s: seq<byte>): seq<seq<byte>> {
    Complete(s) + if Blank(Rest(s)) then [] else [Rest(s)]
  }

  /** The lines that a reader emits before it is done. */
  function Emitted(turns: seq<Read>): seq<seq<byte>> {
    if Dropped(turns) then Complete(Stream(turns)) else Lines(Stream(turns))
  }

  /** The stream that a list of lines and an unterminated rest were cut from. */
  function Unsplit(lines: seq<seq<byte>>, rest: seq<byte>): seq<byte> {
    if lines == [] then rest else lines[0] + [NEWLINE] + Unsplit(lines[1..], rest)
  }

  lemma FirstNewlineUnique(s: seq<byte>, i: nat)
    requires i < |s| && s[i] == NEWLINE && forall j | 0 <= j < i :: s[j] != NEWLINE
    ensures NEWLINE in s && FirstNewline(s) == i
  {
  }

  lemma SplitStep(line: seq<byte>, tail: seq<byte>)
    requires OneLine(line)
    ensures var s := line + [NEWLINE] + tail;
            Complete(s) == [line] + Complete(tail) && Rest(s) == Rest(tail)
  {
    var s := line + [NEWLINE] + tail;
    FirstNewlineUnique(s, |line|);
    assert s[..|line|] == line && s[|line| + 1..] == tail;
  }

  /** Framing is exact: the lines and the rest are the one way to cut the stream at its newlines. */
  lemma {:induction false} FramingIsTheSplit(s: seq<byte>, lines: seq<seq<byte>>, rest: seq<byte>)
    ensures lines == Complete(s) && rest == Rest(s)
       <==> Unsplit(lines, rest) == s && OneLine(rest) && forall l | l in lines :: OneLine(l)
  {
    SplitUnsplits(s);
    if OneLine(rest) && forall l | l in lines :: OneLine(l) {
      UnsplitSplits(lines, rest);
    }
  }

  lemma {:induction false} UnsplitSplits(lines: seq<seq<byte>>, rest: seq<byte>)
    requires OneLine(rest) && forall l | l in lines :: OneLine(l)
    ensures Complete(Unsplit(lines, rest)) == lines && Rest(Unsplit(lines, rest)) == rest
  {
    if lines != [] {
      UnsplitSplits(lines[1..], rest);
      SplitStep(lines[0], Unsplit(lines[1..], rest));
    }
  }

  lemma {:induction false} SplitUnsplits(s: seq<byte>)
    ensures Unsplit(Complete(s), Rest(s)) == s && OneLine(Rest(s)) && forall l | l in Complete(s) :: OneLine(l)
    decreases |s|
  {
    if NEWLINE in s {
      var i := FirstNewline(s);
      var line, tail := s[..i], s[i + 1..];
      SplitUnsplits(tail);
      UnsplitCons(line, Complete(tail), Rest(tail));
      CutAt(s, i);
    }
  }

  lemma UnsplitCons(line: seq<byte>, lines: seq<seq<byte>>, rest: seq<byte>)
    ensures Unsplit([line] + lines, rest) == line + [NEWLINE] + Unsplit(lines, rest)
  {
  }

  /** Reading on after a prefix only needs the prefix's unterminated rest. */
  lemma {:induction false} SplitContinues(a: seq<byte>, b: seq<byte>)
    ensures Complete(a + b) == Complete(a) + Complete(Rest(a) + b)
    ensures Rest(a + b) == Rest(Rest(a) + b)
    decreases |a|
  {
    if NEWLINE in a {
      var i := FirstNewline(a);
      var line, tail := a[..i], a[i + 1..];
      SplitContinues(tail, b);
      CutAt(a, i);
      ConcatAssoc(line + [NEWLINE], tail, b);
      SplitStep(line, tail + b);
      ConcatAssoc([line], Complete(tail), Complete(Rest(tail) + b));
    }
  }

  /** After i turns that did not end the stream: the bytes got so far, the rest kept and the lines queued. */
  ghost predicate ReadSoFar(turns: seq<Read>, i: nat, got: seq<byte>, buf: seq<byte>, before: seq<seq<byte>>,
                            lineQueue: seq<seq<byte>>) {
    && i <= |turns|
    && Stream(turns) == got + Stream(turns[i..])
    && Ended(turns) == Ended(turns[i..]) && Dropped(turns) == Dropped(turns[i..])
    && buf == Rest(got) && lineQueue == before + Complete(got)
  }

  lemma NothingRead(turns: seq<Read>, lineQueue: seq<seq<byte>>)
    ensures ReadSoFar(turns, 0, [], [], lineQueue, lineQueue)
  {
    assert turns[0..] == turns;
  }

  lemma NothingReady(turns: seq<Read>, i: nat, got: seq<byte>, buf: seq<byte>, before: seq<seq<byte>>,
                     lineQueue: seq<seq<byte>>)
    requires ReadSoFar(turns, i, got, buf, before, lineQueue) && i < |turns| && turns[i].NotReady?
    ensures ReadSoFar(turns, i + 1, got, buf, before, lineQueue)
  {
    NextTurn(turns, i, got);
  }

  lemma ChunkRead(turns: seq<Read>, i: nat, got: seq<byte>, buf: seq<byte>, before: seq<seq<byte>>,
                  lineQueue: seq<seq<byte>>)
    requires ReadSoFar(turns, i, got, buf, before, lineQueue) && i < |turns| && turns[i].Chunk? && !Ends(turns[i])
    ensures var data := turns[i].data;
            ReadSoFar(turns, i + 1, got + data, Rest(buf + data), before, lineQueue + Complete(buf + data))
  {
    NextTurn(turns, i, got);
    SplitContinues(got, turns[i].data);
    ConcatAssoc(before, Complete(got), Complete(Rest(got) + turns[i].data));
  }

  class StdoutReader {
    var lineQueue: seq<seq<byte>>
    var done: bool

    constructor ()
      ensures lineQueue == [] && !done
    {
      lineQueue, done := [], false;
    }

    /** The inner loop: queue the complete lines of the buffer and keep the rest. */
    method TakeLines(buffer: seq<byte>) returns (buf: seq<byte>)
      modifies this`lineQueue
      ensures lineQueue == old(lineQueue) + Complete(buffer) && buf == Rest(buffer)
    {
      buf := buffer;
      while NEWLINE in buf
        invariant Rest(buf) == Rest(buffer)
        invariant lineQueue + Complete(buf) == old(lineQueue) + Complete(buffer)
        decreases |buf|
      {
        var k := FirstNewline(buf);
        ConcatAssoc(lineQueue, [buf[..k]], Complete(buf[k + 1..]));
        lineQueue := lineQueue + [buf[..k]];
        buf := buf[k + 1..];
      }
    }

    /** The loop of _read_loop, up to the end of the stream or of the turns. */
    method ReadChunks(turns: seq<Read>) returns (buf: seq<byte>, ended: bool, dropped: bool)
      modifies this`lineQueue
      ensures ended == Ended(turns) && dropped == Dropped(turns)
      ensures buf == Rest(Stream(turns)) && lineQueue == old(lineQueue) + Complete(Stream(turns))
    {
      buf := [];
      ghost var got: seq<byte> := [];
      var i := 0;
      NothingRead(turns, lineQueue);
      while i < |turns| && !Ends(turns[i])
        invariant ReadSoFar(turns, i, got, buf, old(lineQueue), lineQueue)
      {
        if turns[i].Chunk? {
          ChunkRead(turns, i, got, buf, old(lineQueue), lineQueue);
          got := got + turns[i].data;
          buf := TakeLines(buf + turns[i].data);
        } else {
          NothingReady(turns, i, got, buf, old(lineQueue), lineQueue);
        }
        i := i + 1;
      }
      NextTurn(turns, i, got);
      ended := i < |turns|;
      dropped := ended && turns[i].SelectError?;
    }

    /** _read_loop: whatever the chunks, the queue receives the lines of the whole stream, without an unterminated
        last one when select fails. While the stream is open it has received the complete lines so far. */
    method ReadLoop(turns: seq<Read>)
      modifies this
      ensures Ended(turns) ==> done && lineQueue == old(lineQueue) + Emitted(turns)
      ensures !Ended(turns) ==> done == old(done) && lineQueue == old(lineQueue) + Complete(Stream(turns))
    {
      var buf, ended, dropped := ReadChunks(turns);
      if ended {
        if !dropped && !Blank(buf) {
          lineQueue := lineQueue + [buf];
        }
        done := true;
      }
    }
  }

  /** Chunk independence: streams with the same bytes emit the same lines, however they were cut, exactly when
      both or neither end with a failing select or the last line is blank anyway. */
  method SameBytesSameLinesIff(turns1: seq<Read>, turns2: seq<Read>) returns (lines1: seq<seq<byte>>,
                               lines2: seq<seq<byte>>)
    requires Ended(turns1) && Ended(turns2) && Stream(turns1) == Stream(turns2)
    ensures lines1 == lines2 <==> Dropped(turns1) == Dropped(turns2) || Blank(Rest(Stream(turns1)))
    ensures !Dropped(turns1) ==> lines1 == Lines(Stream(turns1))
  {
    var a := new StdoutReader();
    a.ReadLoop(turns1);
    var b := new StdoutReader();
    b.ReadLoop(turns2);
    return a.lineQueue, b.lineQueue;
  }
}
