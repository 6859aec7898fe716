/**
 * Newline framing of lapce-rpc (`stdio_transport`, `write_msg`, `read_msg`,
 * `IoThreads::join`).  The writer and reader are the bodies of the two
 * worker threads, run here as ordinary loops; serialisation and parsing
 * are functions the caller supplies (serde_json is not part of this model).
 */
module Stdio {
  import opened Wrappers

  /** Why a worker loop stopped. */
  datatype IoError = SerializeFailed | WriteFailed | ReadFailed | ParseFailed | SendFailed

  /** One frame on the wire: the text and a single newline. */
  function Line(text: string): string
  {
    text + "\n"
  }

  /** Every message serialises. */
  predicate AllSerialise<T>(msgs: seq<T>, ser: T -> Option<string>)
  {
    forall k :: 0 <= k < |msgs| ==> ser(msgs[k]).Some?
  }

  /** The frames of messages that all serialise, one after the other. */
  function Frames<T>(msgs: seq<T>, ser: T -> Option<string>): string
    requires AllSerialise(msgs, ser)
  {
    if msgs == [] then [] else Frames(msgs[..|msgs| - 1], ser) + Line(ser(msgs[|msgs| - 1]).value)
  }

  /**
   * Messages that serialise to texts without a newline and parse back from
   * their frames (what serde_json provides).
   */
  ghost predicate RoundTrips<T>(msgs: seq<T>, ser: T -> Option<string>, parse: string -> Option<T>)
  {
    forall k :: 0 <= k < |msgs| ==>
      ser(msgs[k]).Some? && '\n' !in ser(msgs[k]).value && parse(Line(ser(msgs[k]).value)) == Some(msgs[k])
  }

  /**
   * The writing end (`W: Write`): characters written but not yet flushed sit
   * in `buffer`; `capacity` is how many more characters it accepts before
   * an I/O error; `flushFails` says whether `flush` reports an I/O error.
   */
  class Sink {
    var flushed: string
    var buffer: string
    var capacity: nat
    var flushFails: bool

    constructor (capacity: nat, flushFails: bool)
      ensures flushed == [] && buffer == [] && this.capacity == capacity && this.flushFails == flushFails
    {
      flushed := [];
      buffer := [];
      this.capacity := capacity;
      this.flushFails := flushFails;
    }

    /** `write_all`: on an error what fitted has still been written. */
    method WriteAll(data: string) returns (ok: bool)
      modifies this
      ensures ok == (|data| <= old(capacity))
      ensures flushed == old(flushed) && flushFails == old(flushFails)
      ensures buffer == old(buffer) + (if ok then data else data[..old(capacity)])
      ensures capacity == if ok then old(capacity) - |data| else 0
    {
      ok := |data| <= capacity;
      if ok {
        buffer := buffer + data;
        capacity := capacity - |data|;
      } else {
        buffer := buffer + data[..capacity];
        capacity := 0;
      }
    }

    /** `flush`: the buffer goes out, unless the sink reports an error, which moves nothing. */
    method Flush() returns (ok: bool)
      modifies this
      ensures ok == !flushFails && flushFails == old(flushFails) && capacity == old(capacity)
      ensures ok ==> flushed == old(flushed) + old(buffer) && buffer == []
      ensures !ok ==> flushed == old(flushed) && buffer == old(buffer)
    {
      ok := !flushFails;
      if ok {
        flushed := flushed + buffer;
        buffer := [];
      }
    }
  }

  /** `write_msg`: serialise, write the text and one newline, then flush. */
  method WriteMsg<T>(out: Sink, msg: T, ser: T -> Option<string>) returns (r: Result<(), IoError>)
    modifies out
    ensures ser(msg).None? ==> r == Err(SerializeFailed) && unchanged(out)
    ensures ser(msg).Some? ==>
      && (r.Ok? <==> |Line(ser(msg).value)| <= old(out.capacity) && !out.flushFails)
      && (r.Err? ==> r == Err(WriteFailed) && out.flushed == old(out.flushed))
    ensures out.flushFails == old(out.flushFails)
    ensures r.Ok? ==>
      && out.flushed == old(out.flushed) + old(out.buffer) + Line(ser(msg).value)
      && out.buffer == []
      && out.capacity == old(out.capacity) - |Line(ser(msg).value)|
  {
    var text := ser(msg);
    if text.None? {
      return Err(SerializeFailed);
    }
    var ok := out.WriteAll(Line(text.value));
    if !ok {
      return Err(WriteFailed);
    }
    ok := out.Flush();
    if !ok {
      return Err(WriteFailed);
    }
    r := Ok(());
  }

  /**
   * The writer thread: write the queued messages in queue order, stopping
   * at the first serialisation, write or flush error.  `written` is how
   * many were written and flushed completely.
   */
  method WriterLoop<T>(out: Sink, msgs: seq<T>, ser: T -> Option<string>) returns (r: Result<(), IoError>, written: nat)
    modifies out
    ensures written <= |msgs| && AllSerialise(msgs[..written], ser)
    ensures r.Ok? <==> written == |msgs|
    ensures written < |msgs| ==> r == Err(if ser(msgs[written]).None? then SerializeFailed else WriteFailed)
    ensures |Frames(msgs[..written], ser)| <= old(out.capacity)
    ensures r == Err(WriteFailed) ==>
      old(out.flushFails) || |Frames(msgs[..written], ser)| + |Line(ser(msgs[written]).value)| > old(out.capacity)
    ensures old(out.flushFails) ==> written == 0
    ensures out.flushed == old(out.flushed) + (if written == 0 then [] else old(out.buffer)) + Frames(msgs[..written], ser)
    ensures out.flushFails == old(out.flushFails)
    ensures r.Ok? ==>
      && out.buffer == (if written == 0 then old(out.buffer) else [])
      && out.capacity == old(out.capacity) - |Frames(msgs, ser)|
  {
    written := 0;
    assert msgs[..0] == [];
    while written < |msgs|
      invariant written <= |msgs| && AllSerialise(msgs[..written], ser)
      invariant out.flushFails == old(out.flushFails) && (old(out.flushFails) ==> written == 0)
      invariant out.capacity == old(out.capacity) - |Frames(msgs[..written], ser)|
      invariant out.flushed == old(out.flushed) + (if written == 0 then [] else old(out.buffer)) + Frames(msgs[..written], ser)
      invariant if written == 0 then out.buffer == old(out.buffer) else out.buffer == []
    {
      var res := WriteMsg(out, msgs[written], ser);
      if res.Err? {
        return res, written;
      }
      ghost var done := msgs[..written + 1];
      assert done[..written] == msgs[..written];
      assert Frames(done, ser) == Frames(msgs[..written], ser) + Line(ser(msgs[written]).value);
      written := written + 1;
    }
    assert msgs[..written] == msgs;
    r := Ok(());
  }

  /** How many characters `read_line` takes: up to and including the first newline, or all. */
  function LineLength(s: string): (n: nat)
    ensures n <= |s| && (s != [] ==> n > 0)
  {
    if s == [] then 0 else if s[0] == '\n' then 1 else 1 + LineLength(s[1..])
  }

  /**
   * The reading end (`R: BufRead`): the characters still to come, and
   * whether the stream fails with an I/O error once they are used up
   * (otherwise it reports end of file).
   */
  class Source {
    var input: string
    var broken: bool

    constructor (input: string, broken: bool)
      ensures this.input == input && this.broken == broken
    {
      this.input := input;
      this.broken := broken;
    }

    /** `read_line` into an empty buffer; at end of file the line is empty. */
    method ReadLine() returns (r: Result<string, IoError>)
      modifies this
      ensures old(input) == [] && broken ==> r == Err(ReadFailed) && input == old(input)
      ensures !(old(input) == [] && broken) ==>
        && r == Ok(old(input)[..LineLength(old(input))])
        && input == old(input)[LineLength(old(input))..]
      ensures broken == old(broken)
    {
      if input == [] && broken {
        return Err(ReadFailed);
      }
      var n := LineLength(input);
      r := Ok(input[..n]);
      input := input[n..];
    }
  }

  /** The receiving side of `reader_sender`: `send` fails once it is gone. */
  class Channel<T> {
    var items: seq<T>
    var open: bool

    constructor (open: bool)
      ensures items == [] && this.open == open
    {
      items := [];
      this.open := open;
    }

    method Send(x: T) returns (ok: bool)
      modifies this
      ensures ok == open && open == old(open)
      ensures items == if ok then old(items) + [x] else old(items)
    {
      ok := open;
      if ok {
        items := items + [x];
      }
    }
  }

  /**
   * What the reader thread forwards from `input`, and why it stops: one
   * line per message, in order, until the first read, parse or forward
   * error.  End of file is an empty line, which does not parse.
   */
  function ReadAll<T>(input: string, broken: bool, parse: string -> Option<T>, open: bool): (r: (seq<T>, IoError))
    requires parse([]).None?
    decreases |input|
  {
    if input == [] && broken then ([], ReadFailed)
    else
      var n := LineLength(input);
      match parse(input[..n])
      case None => ([], ParseFailed)
      case Some(m) =>
        if !open then ([], SendFailed)
        else
          assert n > 0;
          var (ms, e) := ReadAll(input[n..], broken, parse, open);
          ([m] + ms, e)
  }

  /** A line that parses, forwarded: its message, then what the rest of the input gives. */
  lemma ReadAllOne<T>(input: string, broken: bool, parse: string -> Option<T>, m: T)
    requires parse([]).None? && !(input == [] && broken)
    requires parse(input[..LineLength(input)]) == Some(m)
    ensures |input[LineLength(input)..]| < |input|
    ensures var after := ReadAll(input[LineLength(input)..], broken, parse, true);
      ReadAll(input, broken, parse, true) == ([m] + after.0, after.1)
  {
  }

  /**
   * The reader thread only ever stops with a read, parse or send error: a
   * read error only from a broken source, a send error only from a closed
   * channel, and into a closed channel nothing is forwarded.
   */
  lemma {:induction false} ReadAllEnds<T>(input: string, broken: bool, parse: string -> Option<T>, open: bool)
    requires parse([]).None?
    ensures var r := ReadAll(input, broken, parse, open);
      && (r.1 == ReadFailed || r.1 == ParseFailed || r.1 == SendFailed)
      && (r.1 == ReadFailed ==> broken)
      && (r.1 == SendFailed ==> !open)
      && (!open ==> r.0 == [])
    decreases |input|
  {
    if !(input == [] && broken) {
      var n := LineLength(input);
      if parse(input[..n]).Some? && open {
        ReadAllEnds(input[n..], broken, parse, open);
      }
    }
  }

  /** Where the reader stops at once: a read error, a line that does not parse, or a closed channel. */
  lemma ReadAllStops<T>(input: string, broken: bool, parse: string -> Option<T>, open: bool)
    requires parse([]).None?
    ensures input == [] && broken ==> ReadAll(input, broken, parse, open) == ([], ReadFailed)
    ensures !(input == [] && broken) && parse(input[..LineLength(input)]).None? ==>
      ReadAll(input, broken, parse, open) == ([], ParseFailed)
    ensures !(input == [] && broken) && parse(input[..LineLength(input)]).Some? && !open ==>
      ReadAll(input, broken, parse, open) == ([], SendFailed)
  {
  }

  /** `read_msg`: read one line and parse it; a read error or a parse error ends it. */
  method ReadMsg<T>(src: Source, parse: string -> Option<T>) returns (r: Result<T, IoError>)
    modifies src
    ensures src.broken == old(src.broken)
    ensures old(src.input) == [] && old(src.broken) ==> r == Err(ReadFailed) && src.input == old(src.input)
    ensures !(old(src.input) == [] && old(src.broken)) ==>
      && src.input == old(src.input)[LineLength(old(src.input))..]
      && r == match parse(old(src.input)[..LineLength(old(src.input))])
              case Some(m) => Ok(m)
              case None => Err(ParseFailed)
  {
    var line := src.ReadLine();
    if line.Err? {
      return Err(line.error);
    }
    var msg := parse(line.value);
    if msg.None? {
      return Err(ParseFailed);
    }
    r := Ok(msg.value);
  }

  /** The reader thread (`loop { read_msg; send }`); it only ever ends with an error. */
  method ReaderLoop<T>(src: Source, parse: string -> Option<T>, dst: Channel<T>) returns (e: IoError)
    requires parse([]).None?
    modifies src, dst
    ensures dst.items == old(dst.items) + ReadAll(old(src.input), old(src.broken), parse, old(dst.open)).0
    ensures e == ReadAll(old(src.input), old(src.broken), parse, old(dst.open)).1
  {
    ghost var all := ReadAll(src.input, src.broken, parse, dst.open);
    ghost var before := dst.items;
    while true
      invariant dst.open == old(dst.open) && src.broken == old(src.broken)
      invariant before + all.0 == dst.items + ReadAll(src.input, src.broken, parse, dst.open).0
      invariant all.1 == ReadAll(src.input, src.broken, parse, dst.open).1
      decreases |src.input|
    {
      ghost var input := src.input;
      ghost var items := dst.items;
      hide ReadAll;
      ReadAllStops(input, src.broken, parse, dst.open);
      var msg := ReadMsg(src, parse);
      if msg.Err? {
        return msg.error;
      }
      var ok := dst.Send(msg.value);
      if !ok {
        return SendFailed;
      }
      ReadAllOne(input, src.broken, parse, msg.value);
      AppendOne(items, msg.value, ReadAll(src.input, src.broken, parse, true).0);
    }
  }

  /** Appending one item, then the rest, is appending the item and the rest together. */
  lemma AppendOne<T>(xs: seq<T>, x: T, ys: seq<T>)
    ensures (xs + [x]) + ys == xs + ([x] + ys)
  {
  }

  /** A frame whose text has no newline is read back as exactly that frame. */
  lemma {:induction false} LineLengthOfFrame(text: string, rest: string)
    requires '\n' !in text
    ensures LineLength(Line(text) + rest) == |text| + 1
    decreases |text|
  {
    if text != [] {
      assert (Line(text) + rest)[1..] == Line(text[1..]) + rest;
      LineLengthOfFrame(text[1..], rest);
    }
  }

  lemma {:induction false} FramesCons<T>(m: T, msgs: seq<T>, ser: T -> Option<string>)
    requires ser(m).Some? && AllSerialise(msgs, ser)
    ensures AllSerialise([m] + msgs, ser)
    ensures Frames([m] + msgs, ser) == Line(ser(m).value) + Frames(msgs, ser)
    decreases |msgs|
  {
    if msgs != [] {
      var init := msgs[..|msgs| - 1];
      assert ([m] + msgs)[..|msgs|] == [m] + init;
      FramesCons(m, init, ser);
    } else {
      assert Frames([m], ser) == Frames([], ser) + Line(ser(m).value);
    }
  }

  /** One frame whose text parses: its message is forwarded and reading goes on after it. */
  lemma ReadOneFrame<T>(t: string, m: T, rest: string, broken: bool, parse: string -> Option<T>)
    requires parse([]).None? && '\n' !in t && parse(Line(t)) == Some(m)
    ensures ReadAll(Line(t) + rest, broken, parse, true)
         == ([m] + ReadAll(rest, broken, parse, true).0, ReadAll(rest, broken, parse, true).1)
  {
    var input := Line(t) + rest;
    LineLengthOfFrame(t, rest);
    assert input[..|t| + 1] == Line(t);
    assert input[|t| + 1..] == rest;
  }

  /** The first message round-trips, and so do the others. */
  lemma RoundTripsTail<T>(msgs: seq<T>, ser: T -> Option<string>, parse: string -> Option<T>)
    requires RoundTrips(msgs, ser, parse) && msgs != []
    ensures ser(msgs[0]).Some? && '\n' !in ser(msgs[0]).value && parse(Line(ser(msgs[0]).value)) == Some(msgs[0])
    ensures RoundTrips(msgs[1..], ser, parse)
    ensures [msgs[0]] + msgs[1..] == msgs
  {
    forall k | 0 <= k < |msgs[1..]| ensures msgs[1..][k] == msgs[k + 1] { }
  }

  /**
   * Reading frames back: the frames of messages that round-trip give those
   * messages in order, and the reader then goes on with what follows them.
   */
  lemma {:induction false} ReadFramesThen<T>(msgs: seq<T>, tail: string, broken: bool,
                                             ser: T -> Option<string>, parse: string -> Option<T>)
    requires parse([]).None? && RoundTrips(msgs, ser, parse)
    ensures AllSerialise(msgs, ser)
    ensures ReadAll(Frames(msgs, ser) + tail, broken, parse, true)
         == (msgs + ReadAll(tail, broken, parse, true).0, ReadAll(tail, broken, parse, true).1)
    decreases |msgs|
  {
    hide ReadAll, LineLength, Line, RoundTrips;
    if msgs != [] {
      hide *;
      var m := msgs[0];
      RoundTripsTail(msgs, ser, parse);
      ReadFramesThen(msgs[1..], tail, broken, ser, parse);
      FramesCons(m, msgs[1..], ser);
      var rest := Frames(msgs[1..], ser) + tail;
      assert Frames(msgs, ser) + tail == Line(ser(m).value) + rest;
      ReadOneFrame(ser(m).value, m, rest, broken, parse);
      var after := ReadAll(tail, broken, parse, true);
      assert msgs + after.0 == [m] + (msgs[1..] + after.0);
    } else {
      assert Frames(msgs, ser) + tail == tail;
      assert msgs + ReadAll(tail, broken, parse, true).0 == ReadAll(tail, broken, parse, true).0;
    }
  }

  /**
   * Round trip through the wire: what the writer writes for messages that
   * round-trip is read as the same messages, and the reader then stops at
   * end of file with a parse error.
   */
  lemma WireRoundTrip<T>(msgs: seq<T>, ser: T -> Option<string>, parse: string -> Option<T>)
    requires parse([]).None? && RoundTrips(msgs, ser, parse)
    ensures AllSerialise(msgs, ser)
    ensures ReadAll(Frames(msgs, ser), false, parse, true) == (msgs, ParseFailed)
  {
    ReadFramesThen(msgs, [], false, ser, parse);
    assert Frames(msgs, ser) + [] == Frames(msgs, ser);
    assert msgs + [] == msgs;
  }

  /** A line that does not parse ends the reader there: it is an error, not a skip. */
  lemma BadLineStops<T>(msgs: seq<T>, bad: string, rest: string, broken: bool,
                        ser: T -> Option<string>, parse: string -> Option<T>)
    requires parse([]).None? && RoundTrips(msgs, ser, parse)
    requires '\n' !in bad && parse(Line(bad)).None?
    ensures AllSerialise(msgs, ser)
    ensures ReadAll(Frames(msgs, ser) + (Line(bad) + rest), broken, parse, true) == (msgs, ParseFailed)
  {
    ReadFramesThen(msgs, Line(bad) + rest, broken, ser, parse);
    LineLengthOfFrame(bad, rest);
    assert (Line(bad) + rest)[..|bad| + 1] == Line(bad);
    assert msgs + [] == msgs;
  }

  /**
   * `IoThreads::join`: the reader's error if it failed (the writer is not
   * looked at), otherwise the writer's result.
   */
  function Join(reader: Result<(), IoError>, writer: Result<(), IoError>): (r: Result<(), IoError>)
    ensures r.Ok? <==> reader.Ok? && writer.Ok?
    ensures reader.Err? ==> r == reader
    ensures reader.Ok? ==> r == writer
  {
    if reader.Err? then reader else writer
  }
}
