/**
 * The incremental JSON Lines decoder (crates/client/src/stream.rs): a buffer that grows by
 * arbitrary chunks and is drained a line at a time, against splitting the whole body at newlines.
 */
module StreamDecoder {
  import opened Wrappers

  newtype Byte = x: int | 0 <= x < 256

  const NEWLINE: Byte := 10
  const MAX_FRAME_BYTES: nat := 16 * 1024 * 1024

  type Bytes = seq<Byte>

  datatype WireFrame<T, E> = Next(data: T) | Failure(error: E) | EndFrame

  datatype ActionResult<T, E> = Ok(data: T) | Error(error: E)

  datatype Line<T, E> = Item(data: T) | Last(error: E) | End | Skip

  /** JSON decoding, which is not part of this model, and the two errors the client makes itself. */
  datatype Codec<!T, !E> = Codec(
    decode: Bytes -> Option<WireFrame<T, E>>, saysNext: Bytes -> bool, badFrame: E, interrupted: E)

  /** A `next` frame with the wrong data is an error; anything else undecodable is nothing. */
  function Undecodable<T, E>(codec: Codec<T, E>, line: Bytes): Option<E> {
    if codec.saysNext(line) then Some(codec.badFrame) else None
  }

  function ParseLine<T, E>(codec: Codec<T, E>, line: Bytes): Line<T, E> {
    if line == [] then Skip else
      match codec.decode(line)
      case Some(Next(data)) => Item(data)
      case Some(Failure(error)) => Last(error)
      case Some(EndFrame) => End
      case None => match Undecodable(codec, line) case Some(error) => Last(error) case None => Skip
  }

  // ----- Splitting a body at its newlines ----------------------------------------------------------

  function FirstNewline(b: Bytes): (i: nat)
    requires NEWLINE in b
    ensures i < |b| && b[i] == NEWLINE && NEWLINE !in b[..i]
  {
    if b[0] == NEWLINE then 0
    else
      var i := FirstNewline(b[1..]) + 1;
      assert b[..i] == [b[0]] + b[1..][..i - 1];
      i
  }

  /** The complete lines, without their newlines. */
  function Lines(b: Bytes): seq<Bytes> {
    if NEWLINE !in b then [] else [b[..FirstNewline(b)]] + Lines(b[FirstNewline(b) + 1..])
  }

  /** What follows the last newline. */
  function Tail(b: Bytes): (t: Bytes)
    ensures NEWLINE !in t
  {
    if NEWLINE !in b then b else Tail(b[FirstNewline(b) + 1..])
  }

  function Joined(lines: seq<Bytes>): Bytes {
    if lines == [] then [] else lines[0] + [NEWLINE] + Joined(lines[1..])
  }

  lemma FirstOf(line: Bytes, rest: Bytes)
    requires NEWLINE !in line
    ensures var b := line + [NEWLINE] + rest;
            NEWLINE in b && FirstNewline(b) == |line| && b[..|line|] == line && b[|line| + 1..] == rest
  {
    hide FirstNewline;
    var b := line + [NEWLINE] + rest;
    assert b[|line|] == NEWLINE;
    var i := FirstNewline(b);
    assert forall k :: 0 <= k < |line| ==> b[k] == line[k];
    forall j | |line| < j <= |b| ensures NEWLINE in b[..j] {
      assert b[..j][|line|] == NEWLINE;
    }
  }

  lemma LinesStep(line: Bytes, rest: Bytes)
    requires NEWLINE !in line
    ensures Lines(line + [NEWLINE] + rest) == [line] + Lines(rest)
    ensures Tail(line + [NEWLINE] + rest) == Tail(rest)
  {
    hide FirstNewline;
    FirstOf(line, rest);
  }

  lemma NoLines(b: Bytes)
    requires NEWLINE !in b
    ensures Lines(b) == [] && Tail(b) == b
  {
  }

  lemma CutFirst(b: Bytes) returns (line: Bytes, rest: Bytes)
    requires NEWLINE in b
    ensures NEWLINE !in line && b == line + [NEWLINE] + rest && |rest| < |b|
    ensures line == b[..FirstNewline(b)] && rest == b[FirstNewline(b) + 1..]
  {
    hide FirstNewline;
    line, rest := b[..FirstNewline(b)], b[FirstNewline(b) + 1..];
  }

  /** `Lines` and `Tail` are the one way of cutting a body into newline-free pieces at its newlines. */
  lemma {:induction false} SplitUnique(lines: seq<Bytes>, tail: Bytes)
    requires NEWLINE !in tail && forall i :: 0 <= i < |lines| ==> NEWLINE !in lines[i]
    ensures Lines(Joined(lines) + tail) == lines && Tail(Joined(lines) + tail) == tail
  {
    hide Lines, Tail;
    if lines == [] {
      assert Joined(lines) + tail == tail;
      NoLines(tail);
    } else {
      SplitUnique(lines[1..], tail);
      LinesStep(lines[0], Joined(lines[1..]) + tail);
      assert Joined(lines) + tail == lines[0] + [NEWLINE] + (Joined(lines[1..]) + tail);
    }
  }

  lemma JoinedStep(line: Bytes, lines: seq<Bytes>)
    ensures Joined([line] + lines) == line + [NEWLINE] + Joined(lines)
  {
    assert ([line] + lines)[1..] == lines;
  }

  lemma {:induction false} SplitJoins(b: Bytes)
    ensures Joined(Lines(b)) + Tail(b) == b
    ensures forall i :: 0 <= i < |Lines(b)| ==> NEWLINE !in Lines(b)[i]
    decreases |b|
  {
    hide Lines, Tail, Joined, FirstNewline;
    if NEWLINE in b {
      var line, rest := CutFirst(b);
      SplitJoins(rest);
      LinesStep(line, rest);
      JoinedStep(line, Lines(rest));
    } else {
      NoLines(b);
      NothingJoined();
    }
  }

  lemma NothingJoined()
    ensures Joined([]) == []
  {
  }

  /** More input only completes the unfinished line and adds to it. */
  lemma {:induction false} LinesConcat(a: Bytes, b: Bytes)
    ensures Lines(a + b) == Lines(a) + Lines(Tail(a) + b)
    ensures Tail(a + b) == Tail(Tail(a) + b)
    decreases |a|
  {
    hide Lines, Tail, FirstNewline;
    if NEWLINE in a {
      var line, rest := CutFirst(a);
      LinesConcat(rest, b);
      LinesStep(line, rest);
      LinesStep(line, rest + b);
      assert a + b == line + [NEWLINE] + (rest + b);
    } else {
      NoLines(a);
    }
  }

  // ----- What a list of lines yields -------------------------------------------------------------------

  datatype Stop = Running | Finished | Failed

  datatype Reading<T, E> = Reading(items: seq<ActionResult<T, E>>, stop: Stop)

  function Before<T, E>(items: seq<ActionResult<T, E>>, r: Reading<T, E>): Reading<T, E> {
    Reading(items + r.items, r.stop)
  }

  /** What a line yields, given what the lines after it would. */
  function Yield<T, E>(line: Line<T, E>, rest: Reading<T, E>): Reading<T, E> {
    match line
    case Item(data) => Before([ActionResult.Ok(data)], rest)
    case Last(error) => Reading([Error(error)], Failed)
    case End => Reading([], Finished)
    case Skip => rest
  }

  /** Frames are yielded up to the first error, which is the last, or the first `end`. */
  function Read<T, E>(codec: Codec<T, E>, lines: seq<Bytes>): Reading<T, E> {
    if lines == [] then Reading([], Running) else Yield(ParseLine(codec, lines[0]), Read(codec, lines[1..]))
  }

  lemma {:induction false} ReadConcat<T, E>(codec: Codec<T, E>, a: seq<Bytes>, b: seq<Bytes>)
    ensures Read(codec, a + b) ==
            if Read(codec, a).stop.Running? then Before(Read(codec, a).items, Read(codec, b)) else Read(codec, a)
  {
    if a == [] {
      assert a + b == b;
    } else {
      assert (a + b)[1..] == a[1..] + b;
      ReadConcat(codec, a[1..], b);
    }
  }

  /** A stream that was not finished says so. */
  function Outcome<T, E>(codec: Codec<T, E>, r: Reading<T, E>): seq<ActionResult<T, E>> {
    r.items + if r.stop.Running? then [Error(codec.interrupted)] else []
  }

  // ----- The loop -------------------------------------------------------------------------------------------

  datatype Delivery = Chunk(bytes: Bytes) | Broken

  /** The bytes whose lines are looked at: up to a transport error or an overfull buffer. */
  function Received(cap: nat, seen: Bytes, ds: seq<Delivery>): (all: Bytes)
    ensures |seen| <= |all| && all[..|seen|] == seen
    decreases |ds|
  {
    if ds == [] then (if |Tail(seen)| + 1 > cap then seen else seen + [NEWLINE]) else
      match ds[0]
      case Broken => seen
      case Chunk(c) => if |Tail(seen)| + |c| > cap then seen else Received(cap, seen + c, ds[1..])
  }

  lemma StoppedForGood<T, E>(codec: Codec<T, E>, seen: Bytes, all: Bytes)
    requires |seen| <= |all| && all[..|seen|] == seen && !Read(codec, Lines(seen)).stop.Running?
    ensures Read(codec, Lines(all)) == Read(codec, Lines(seen))
  {
    var rest := all[|seen|..];
    assert all == seen + rest;
    LinesConcat(seen, rest);
    ReadConcat(codec, Lines(seen), Lines(Tail(seen) + rest));
  }

  /** Where the draining loop stands: what it yielded, then what the buffer still holds. */
  ghost predicate Draining<T, E>(codec: Codec<T, E>, seen: Bytes, out: seq<ActionResult<T, E>>, buf: Bytes) {
    Read(codec, Lines(seen)) == Before(out, Read(codec, Lines(buf))) && Tail(seen) == Tail(buf)
  }

  lemma Extended<T, E>(codec: Codec<T, E>, seen: Bytes, out: seq<ActionResult<T, E>>, more: Bytes)
    requires Read(codec, Lines(seen)) == Reading(out, Running)
    ensures Draining(codec, seen + more, out, Tail(seen) + more)
  {
    LinesConcat(seen, more);
    ReadConcat(codec, Lines(seen), Lines(Tail(seen) + more));
  }

  lemma Drained<T, E>(codec: Codec<T, E>, seen: Bytes, out: seq<ActionResult<T, E>>, buf: Bytes)
    requires Draining(codec, seen, out, buf) && NEWLINE !in buf
    ensures Read(codec, Lines(seen)) == Reading(out, Running) && Tail(seen) == buf
  {
    assert out + [] == out;
  }

  lemma OneLine<T, E>(codec: Codec<T, E>, seen: Bytes, out: seq<ActionResult<T, E>>, buf: Bytes)
    requires Draining(codec, seen, out, buf) && NEWLINE in buf
    ensures var i := FirstNewline(buf);
            match ParseLine(codec, buf[..i])
            case Item(data) => Draining(codec, seen, out + [ActionResult.Ok(data)], buf[i + 1..])
            case Skip => Draining(codec, seen, out, buf[i + 1..])
            case Last(error) => Read(codec, Lines(seen)) == Reading(out + [Error(error)], Failed)
            case End => Read(codec, Lines(seen)) == Reading(out, Finished)
  {
    hide Lines, Tail, FirstNewline, ParseLine;
    var line, rest := CutFirst(buf);
    LinesStep(line, rest);
    ReadStep(codec, line, Lines(rest));
    var after := Read(codec, Lines(rest)).items;
    var parsed := ParseLine(codec, line);
    assert parsed.Item? ==> out + ([ActionResult.Ok(parsed.data)] + after) == out + [ActionResult.Ok(parsed.data)] + after;
    assert out + [] == out;
  }

  lemma ReadStep<T, E>(codec: Codec<T, E>, line: Bytes, lines: seq<Bytes>)
    ensures Read(codec, [line] + lines) == Yield(ParseLine(codec, line), Read(codec, lines))
  {
    assert ([line] + lines)[1..] == lines;
  }

  /** The decoder agrees with splitting all it received at newlines, however that was cut into chunks. */
  method StreamWith<T, E>(codec: Codec<T, E>, cap: nat, deliveries: seq<Delivery>)
    returns (out: seq<ActionResult<T, E>>)
    ensures out == Outcome(codec, Read(codec, Lines(Received(cap, [], deliveries))))
  {
    hide Read, Lines, Tail, Draining, Outcome;
    out := [];
    var buf: Bytes := [];
    var bodyEnded := false;
    var arrived := 0;
    ghost var seen: Bytes, all := [], Received(cap, [], deliveries);
    assert deliveries[0..] == deliveries;
    NothingRead(codec);
    while !bodyEnded
      invariant arrived <= |deliveries|
      invariant Read(codec, Lines(seen)) == Reading(out, Running) && Tail(seen) == buf
      invariant bodyEnded ==> all == seen
      invariant !bodyEnded ==> all == Received(cap, seen, deliveries[arrived..])
      decreases !bodyEnded, |deliveries| - arrived
    {
      ghost var more;
      if arrived < |deliveries| {
        match deliveries[arrived] {
          case Chunk(chunk) => more := chunk; buf := buf + chunk;
          case Broken => break;
        }
        assert deliveries[arrived..][1..] == deliveries[arrived + 1..];
        arrived := arrived + 1;
      } else {
        bodyEnded := true;
        more := [NEWLINE];
        buf := buf + [NEWLINE];
      }
      if |buf| > cap {
        break;
      }
      Extended(codec, seen, out, more);
      seen := seen + more;
      while NEWLINE in buf
        invariant Draining(codec, seen, out, buf)
        decreases |buf|
      {
        OneLine(codec, seen, out, buf);
        var at := FirstNewline(buf);
        var line := buf[..at];
        buf := buf[at + 1..];
        match ParseLine(codec, line) {
          case Item(data) => out := out + [ActionResult.Ok(data)];
          case Last(error) =>
            out := out + [Error(error)];
            StoppedForGood(codec, seen, all);
            OutcomeIs(codec, Reading(out, Failed));
            return;
          case End =>
            StoppedForGood(codec, seen, all);
            OutcomeIs(codec, Reading(out, Finished));
            return;
          case Skip =>
        }
      }
      Drained(codec, seen, out, buf);
    }
    OutcomeIs(codec, Reading(out, Running));
    out := out + [Error(codec.interrupted)];
  }

  lemma NothingRead<T, E>(codec: Codec<T, E>)
    ensures Read(codec, Lines([])) == Reading([], Running) && Tail([]) == []
  {
  }

  lemma OutcomeIs<T, E>(codec: Codec<T, E>, r: Reading<T, E>)
    ensures Outcome(codec, r) == if r.stop.Running? then r.items + [Error(codec.interrupted)] else r.items
  {
  }

  // ----- What a caller can rely on ---------------------------------------------------------------------

  ghost predicate AllChunks(ds: seq<Delivery>) {
    forall i :: 0 <= i < |ds| ==> ds[i].Chunk?
  }

  ghost function Body(ds: seq<Delivery>): Bytes
    requires AllChunks(ds)
  {
    if ds == [] then [] else Body(ds[..|ds| - 1]) + ds[|ds| - 1].bytes
  }

  /** What arrives next: a chunk, or at the end the newline the last line may lack. */
  ghost function Arrival(ds: seq<Delivery>, i: nat): Bytes
    requires AllChunks(ds) && i <= |ds|
  {
    if i < |ds| then ds[i].bytes else [NEWLINE]
  }

  /** At no arrival is the unfinished line together with what arrives over the cap. */
  ghost predicate NeverOverfull(cap: nat, ds: seq<Delivery>)
    requires AllChunks(ds)
  {
    forall i :: 0 <= i <= |ds| ==> |Tail(Body(ds[..i]))| + |Arrival(ds, i)| <= cap
  }

  lemma BodyStep(ds: seq<Delivery>, i: nat)
    requires AllChunks(ds) && i < |ds|
    ensures Body(ds[..i + 1]) == Body(ds[..i]) + ds[i].bytes && ds[i..][1..] == ds[i + 1..]
  {
    assert ds[..i + 1][..i] == ds[..i];
  }

  lemma ReceivedStep(cap: nat, seen: Bytes, ds: seq<Delivery>)
    ensures ds == [] ==> Received(cap, seen, ds) == if |Tail(seen)| + 1 > cap then seen else seen + [NEWLINE]
    ensures ds != [] && ds[0].Broken? ==> Received(cap, seen, ds) == seen
    ensures ds != [] && ds[0].Chunk? ==>
              Received(cap, seen, ds) ==
              if |Tail(seen)| + |ds[0].bytes| > cap then seen else Received(cap, seen + ds[0].bytes, ds[1..])
  {
    hide Tail;
  }

  /** From the i-th arrival on, none is too much. */
  ghost predicate FitsFrom(cap: nat, ds: seq<Delivery>, i: nat)
    requires AllChunks(ds)
  {
    forall k :: i <= k <= |ds| ==> |Tail(Body(ds[..k]))| + |Arrival(ds, k)| <= cap
  }

  lemma FitsStep(cap: nat, ds: seq<Delivery>, i: nat)
    requires AllChunks(ds) && i <= |ds|
    ensures FitsFrom(cap, ds, i) <==> |Tail(Body(ds[..i]))| + |Arrival(ds, i)| <= cap && FitsFrom(cap, ds, i + 1)
    ensures i == |ds| ==> FitsFrom(cap, ds, i + 1)
  {
    hide Tail, Body;
  }

  lemma {:induction false} ReceivedFrom(cap: nat, ds: seq<Delivery>, i: nat)
    requires AllChunks(ds) && i <= |ds|
    ensures Received(cap, Body(ds[..i]), ds[i..]) == Body(ds) + [NEWLINE] <==> FitsFrom(cap, ds, i)
    ensures Received(cap, Body(ds[..i]), ds[i..]) <= Body(ds) + [NEWLINE] && Body(ds[..i]) <= Body(ds)
    decreases |ds| - i
  {
    hide Tail, Body, Received, FitsFrom;
    FitsStep(cap, ds, i);
    ReceivedStep(cap, Body(ds[..i]), ds[i..]);
    if i == |ds| {
      assert ds[..i] == ds && ds[i..] == [];
    } else {
      ReceivedFrom(cap, ds, i + 1);
      BodyStep(ds, i);
      assert ds[i..][0] == ds[i];
      assert Body(ds[..i]) < Body(ds) + [NEWLINE];
    }
  }

  /** The whole body is decoded exactly when nothing breaks and the buffer never overfills. */
  lemma ReceivedAllIff(cap: nat, ds: seq<Delivery>)
    requires AllChunks(ds)
    ensures Received(cap, [], ds) == Body(ds) + [NEWLINE] <==> NeverOverfull(cap, ds)
    ensures Received(cap, [], ds) <= Body(ds) + [NEWLINE]
  {
    hide Tail, Received;
    ReceivedFrom(cap, ds, 0);
    assert ds[..0] == [] && ds[0..] == ds;
  }

  /** The first `i` arrivals are chunks that fit, and the next one does not, or is a broken transport. */
  ghost predicate CutAt(cap: nat, ds: seq<Delivery>, i: nat) {
    && i <= |ds| && AllChunks(ds[..i])
    && (forall k :: 0 <= k < i ==> |Tail(Body(ds[..i][..k]))| + |ds[k].bytes| <= cap)
    && (if i < |ds| then ds[i].Chunk? ==> |Tail(Body(ds[..i]))| + |ds[i].bytes| > cap
        else |Tail(Body(ds))| + 1 > cap)
  }

  lemma {:induction false} CutFrom(cap: nat, ds: seq<Delivery>, i: nat, k: nat)
    requires CutAt(cap, ds, i) && k <= i
    ensures Received(cap, Body(ds[..i][..k]), ds[k..]) == Body(ds[..i])
    decreases i - k
  {
    hide Tail, Body, Received;
    var front := ds[..i];
    if k == i {
      assert front[..k] == front && (i == |ds| ==> front == ds);
      ReceivedStep(cap, Body(front), ds[k..]);
    } else {
      CutFrom(cap, ds, i, k + 1);
      BodyStep(front, k);
      ReceivedStep(cap, Body(front[..k]), ds[k..]);
      assert ds[k..][1..] == ds[k + 1..] && front[k] == ds[k];
    }
  }

  /** What arrived before the transport broke or the buffer overfilled is what is looked at. */
  lemma ReceivedUpTo(cap: nat, ds: seq<Delivery>, i: nat)
    requires CutAt(cap, ds, i)
    ensures Received(cap, [], ds) == Body(ds[..i])
  {
    hide Tail, Received;
    CutFrom(cap, ds, i, 0);
    assert ds[..i][..0] == [] && ds[0..] == ds;
  }

  ghost function Decoded<T, E>(codec: Codec<T, E>, body: Bytes): seq<ActionResult<T, E>> {
    Outcome(codec, Read(codec, Lines(body)))
  }

  /** Two ways of cutting one body into chunks that never overfill the buffer decode alike. */
  lemma ChunkingIrrelevant<T, E>(codec: Codec<T, E>, cap: nat, ds: seq<Delivery>, es: seq<Delivery>)
    requires AllChunks(ds) && AllChunks(es) && Body(ds) == Body(es) && NeverOverfull(cap, ds) && NeverOverfull(cap, es)
    ensures Decoded(codec, Received(cap, [], ds)) == Decoded(codec, Body(ds) + [NEWLINE])
    ensures Decoded(codec, Received(cap, [], ds)) == Decoded(codec, Received(cap, [], es))
  {
    hide Decoded;
    ReceivedAllIff(cap, ds);
    ReceivedAllIff(cap, es);
  }

  /**
   * When the buffer overfills, the result still agrees with splitting the whole body iff the stream
   * had finished before, or the part never looked at holds nothing but the interruption.
   */
  lemma OverfullAgreesIff<T, E>(codec: Codec<T, E>, cap: nat, ds: seq<Delivery>)
    requires AllChunks(ds)
    ensures var got, whole := Received(cap, [], ds), Body(ds) + [NEWLINE];
            && got <= whole
            && (Decoded(codec, got) == Decoded(codec, whole) <==>
                || NeverOverfull(cap, ds)
                || !Read(codec, Lines(got)).stop.Running?
                || Decoded(codec, Tail(got) + whole[|got|..]) == [Error(codec.interrupted)])
  {
    hide Lines, Tail, Received, Read, Body, NeverOverfull;
    ReceivedAllIff(cap, ds);
    var got, whole := Received(cap, [], ds), Body(ds) + [NEWLINE];
    var rest := whole[|got|..];
    assert whole == got + rest;
    LinesConcat(got, rest);
    ReadConcat(codec, Lines(got), Lines(Tail(got) + rest));
    AfterPrefix(codec, Read(codec, Lines(got)), Read(codec, Lines(Tail(got) + rest)));
  }

  lemma AfterPrefix<T, E>(codec: Codec<T, E>, a: Reading<T, E>, b: Reading<T, E>)
    ensures var both := if a.stop.Running? then Before(a.items, b) else a;
            Outcome(codec, a) == Outcome(codec, both) <==>
            !a.stop.Running? || Outcome(codec, b) == [Error(codec.interrupted)]
  {
    if a.stop.Running? {
      var tail := Outcome(codec, b);
      assert Outcome(codec, Before(a.items, b)) == a.items + tail;
      assert (a.items + tail)[|a.items|..] == tail;
      assert (a.items + [Error(codec.interrupted)])[|a.items|..] == [Error(codec.interrupted)];
    }
  }

  /** An unfinished line is never longer than the line it grows into. */
  lemma TailWithin(a: Bytes, whole: Bytes) returns (j: nat)
    requires a < whole && whole[|whole| - 1] == NEWLINE
    ensures j < |Lines(whole)| && |Tail(a)| <= |Lines(whole)[j]|
  {
    hide Lines, Tail, FirstNewline;
    var rest := whole[|a|..];
    assert whole == a + rest && rest[|rest| - 1] == NEWLINE;
    LinesConcat(a, rest);
    var b := Tail(a) + rest;
    assert b[|b| - 1] == NEWLINE;
    var line, after := CutFirst(b);
    LinesStep(line, after);
    assert b[|line|] == NEWLINE;
    assert forall k :: 0 <= k < |Tail(a)| ==> b[k] == Tail(a)[k];
    j := |Lines(a)|;
  }

  /** A check that needs only the longest line and the largest chunk. */
  lemma ShortLinesFit(cap: nat, ds: seq<Delivery>, longest: nat, largest: nat)
    requires AllChunks(ds) && longest + largest <= cap && 1 <= largest
    requires forall i :: 0 <= i < |ds| ==> |ds[i].bytes| <= largest
    requires var lines := Lines(Body(ds) + [NEWLINE]); forall j :: 0 <= j < |lines| ==> |lines[j]| <= longest
    ensures NeverOverfull(cap, ds)
  {
    hide Lines, Tail, Body, Received;
    forall i | 0 <= i <= |ds| ensures |Tail(Body(ds[..i]))| + |Arrival(ds, i)| <= cap {
      ReceivedFrom(cap, ds, i);
      var whole := Body(ds) + [NEWLINE];
      assert Body(ds[..i]) < whole && whole[|whole| - 1] == NEWLINE;
      var j := TailWithin(Body(ds[..i]), whole);
    }
  }

  /** The cap is tested before draining: many short lines in one chunk trip it as one long line would. */
  lemma SmallFramesOverfill<T, E>(codec: Codec<T, E>, cap: nat, end: Bytes)
    requires NEWLINE !in end && ParseLine(codec, end).End?
    ensures var ds := [Chunk(end + seq(cap, _ => NEWLINE))];
            && Decoded(codec, Body(ds) + [NEWLINE]) == []
            && (|end| > 0 ==> Decoded(codec, Received(cap, [], ds)) == [Error(codec.interrupted)])
  {
    var blank := seq(cap + 1, _ => NEWLINE);
    var ds := [Chunk(end + seq(cap, _ => NEWLINE))];
    assert ds[..0] == [] && Body(ds[..0]) == [];
    assert Body(ds) + [NEWLINE] == end + [NEWLINE] + blank[1..];
    hide Lines, Tail, ParseLine;
    LinesStep(end, blank[1..]);
    ReadStep(codec, end, Lines(blank[1..]));
    NoLines([]);
  }

  // ----- The shape of the output --------------------------------------------------------------------------------

  /** Results, and at most one error, which is the last. */
  ghost predicate Shaped<T, E>(out: seq<ActionResult<T, E>>) {
    forall i :: 0 <= i < |out| - 1 ==> out[i].Ok?
  }

  ghost predicate EndsInError<T, E>(out: seq<ActionResult<T, E>>) {
    out != [] && out[|out| - 1].Error?
  }

  /** The k-th line is an `end` frame and no line before it stopped the stream. */
  ghost predicate EndAt<T, E>(codec: Codec<T, E>, lines: seq<Bytes>, k: nat) {
    && k < |lines| && ParseLine(codec, lines[k]).End?
    && forall j :: 0 <= j < k ==> ParseLine(codec, lines[j]).Item? || ParseLine(codec, lines[j]).Skip?
  }

  /** An `end` frame is the first line to stop the stream. */
  ghost predicate EndFirst<T, E>(codec: Codec<T, E>, lines: seq<Bytes>) {
    exists k: nat :: EndAt(codec, lines, k)
  }

  lemma EndAtStep<T, E>(codec: Codec<T, E>, lines: seq<Bytes>)
    requires lines != []
    ensures EndFirst(codec, lines) <==>
            || ParseLine(codec, lines[0]).End?
            || ((ParseLine(codec, lines[0]).Item? || ParseLine(codec, lines[0]).Skip?) &&
                EndFirst(codec, lines[1..]))
  {
    hide ParseLine;
    if ParseLine(codec, lines[0]).End? {
      assert EndAt(codec, lines, 0);
    }
    if k: nat :| EndAt(codec, lines, k) {
      if k > 0 {
        assert EndAt(codec, lines[1..], k - 1);
      }
    }
    if (ParseLine(codec, lines[0]).Item? || ParseLine(codec, lines[0]).Skip?) && EndFirst(codec, lines[1..]) {
      var k: nat :| EndAt(codec, lines[1..], k);
      assert EndAt(codec, lines, k + 1);
    }
  }

  lemma {:induction false} ReadShape<T, E>(codec: Codec<T, E>, lines: seq<Bytes>)
    ensures Shaped(Read(codec, lines).items)
    ensures EndsInError(Read(codec, lines).items) <==> Read(codec, lines).stop.Failed?
    ensures Read(codec, lines).stop.Finished? <==> EndFirst(codec, lines)
  {
    hide ParseLine, EndFirst;
    if lines == [] {
      NoEnd(codec);
    } else {
      ReadShape(codec, lines[1..]);
      EndAtStep(codec, lines);
      assert lines == [lines[0]] + lines[1..];
      ReadStep(codec, lines[0], lines[1..]);
      YieldShape(ParseLine(codec, lines[0]), Read(codec, lines[1..]));
    }
  }

  lemma NoEnd<T, E>(codec: Codec<T, E>)
    ensures !EndFirst(codec, [])
  {
  }

  lemma YieldShape<T, E>(line: Line<T, E>, rest: Reading<T, E>)
    requires Shaped(rest.items) && (EndsInError(rest.items) <==> rest.stop.Failed?)
    ensures Shaped(Yield(line, rest).items) && (EndsInError(Yield(line, rest).items) <==> Yield(line, rest).stop.Failed?)
  {
  }

  /**
   * Whatever arrives: results, then at most one error and nothing after it; no error at all
   * exactly when an `end` frame is the first line to stop the stream.
   */
  lemma OutputShape<T, E>(codec: Codec<T, E>, cap: nat, ds: seq<Delivery>)
    ensures var lines, out := Lines(Received(cap, [], ds)), Decoded(codec, Received(cap, [], ds));
            Shaped(out) && (!EndsInError(out) <==> EndFirst(codec, lines))
  {
    hide Lines, Received, Read, EndFirst, ParseLine;
    ReadShape(codec, Lines(Received(cap, [], ds)));
    OutcomeShape(codec, Read(codec, Lines(Received(cap, [], ds))));
  }

  lemma OutcomeShape<T, E>(codec: Codec<T, E>, r: Reading<T, E>)
    requires Shaped(r.items) && (EndsInError(r.items) <==> r.stop.Failed?)
    ensures Shaped(Outcome(codec, r)) && (!EndsInError(Outcome(codec, r)) <==> r.stop.Finished?)
  {
  }

  // ----- What a line means ---------------------------------------------------------------------------------------

  /** Blank, malformed, or of a type this client does not know, such as a heartbeat. */
  ghost predicate Noise<T, E>(codec: Codec<T, E>, line: Bytes) {
    line == [] || (codec.decode(line).None? && !codec.saysNext(line))
  }

  ghost predicate Carries<T, E>(codec: Codec<T, E>, line: Bytes, data: T) {
    line != [] && codec.decode(line) == Some(Next(data))
  }

  /** The server's own error, or a `next` frame whose data is of the wrong type. */
  ghost predicate Fails<T, E>(codec: Codec<T, E>, line: Bytes, error: E) {
    && line != []
    && if codec.decode(line).None? then codec.saysNext(line) && error == codec.badFrame
       else codec.decode(line) == Some(Failure(error))
  }

  ghost predicate Ends<T, E>(codec: Codec<T, E>, line: Bytes) {
    line != [] && codec.decode(line) == Some(EndFrame)
  }

  lemma Meant<T, E>(codec: Codec<T, E>, line: Bytes)
    ensures Noise(codec, line) <==> ParseLine(codec, line).Skip?
    ensures Ends(codec, line) <==> ParseLine(codec, line).End?
    ensures forall data :: Carries(codec, line, data) <==> ParseLine(codec, line) == Item(data)
    ensures forall error :: Fails(codec, line, error) <==> ParseLine(codec, line) == Last(error)
  {
  }

  /** A line that means nothing can be added to a body, or left out of it, wherever a line starts. */
  lemma NoiseIrrelevant<T, E>(codec: Codec<T, E>, a: Bytes, line: Bytes, b: Bytes)
    requires Tail(a) == [] && NEWLINE !in line && Noise(codec, line)
    ensures Decoded(codec, a + (line + [NEWLINE] + b)) == Decoded(codec, a + b)
  {
    hide Lines, Tail, Read, Noise, ParseLine;
    LinesConcat(a, line + [NEWLINE] + b);
    LinesConcat(a, b);
    assert [] + (line + [NEWLINE] + b) == line + [NEWLINE] + b && [] + b == b;
    LinesStep(line, b);
    ReadStep(codec, line, Lines(b));
    Meant(codec, line);
    ReadConcat(codec, Lines(a), [line] + Lines(b));
    ReadConcat(codec, Lines(a), Lines(b));
  }

  /** `at` are the places of the lines that carry data, in order. */
  ghost predicate Delivered<T, E>(codec: Codec<T, E>, lines: seq<Bytes>, at: seq<nat>, out: seq<ActionResult<T, E>>) {
    && |at| == |out|
    && (forall i :: 0 <= i < |at| ==> at[i] < |lines| && out[i].Ok? && Carries(codec, lines[at[i]], out[i].data))
    && (forall i, j :: 0 <= i < j < |at| ==> at[i] < at[j])
    && forall k: nat :: k < |lines| && !Noise(codec, lines[k]) ==> k in at
  }

  /** What stops a stream: the interruption if no line does, an error of its own, or the `end` frame. */
  ghost predicate StopsWith<T, E>(codec: Codec<T, E>, lines: seq<Bytes>, k: nat, last: seq<ActionResult<T, E>>) {
    if k < |lines| then
      if Ends(codec, lines[k]) then last == []
      else |last| == 1 && last[0].Error? && Fails(codec, lines[k], last[0].error)
    else last == [Error(codec.interrupted)]
  }

  lemma NothingDelivered<T, E>(codec: Codec<T, E>, lines: seq<Bytes>)
    ensures Delivered(codec, lines[..0], [], [])
    ensures lines == [] ==> StopsWith(codec, lines, 0, [Error(codec.interrupted)])
    ensures Outcome(codec, Read(codec, [])) == [] + [Error(codec.interrupted)]
  {
  }

  /** One more line in front moves every place up by one. */
  function Moved(at: seq<nat>): (moved: seq<nat>)
    ensures |moved| == |at| && forall i :: 0 <= i < |at| ==> moved[i] == at[i] + 1
    ensures forall k: nat :: k in at ==> k + 1 in moved
  {
    if at == [] then [] else [at[0] + 1] + Moved(at[1..])
  }

  lemma NoiseFirst<T, E>(codec: Codec<T, E>, lines: seq<Bytes>, k: nat, at: seq<nat>, data: seq<ActionResult<T, E>>)
    requires lines != [] && k < |lines| && Noise(codec, lines[0]) && Delivered(codec, lines[1..][..k], at, data)
    ensures Delivered(codec, lines[..k + 1], Moved(at), data)
  {
    hide Noise, Carries;
    assert forall i :: 0 <= i < k ==> lines[1..][..k][i] == lines[..k + 1][i + 1];
    var moved := Moved(at);
    forall j: nat | j < k + 1 && !Noise(codec, lines[..k + 1][j]) ensures j in moved {
      assert j - 1 in at;
    }
  }

  lemma DataFirst<T, E>(codec: Codec<T, E>, lines: seq<Bytes>, k: nat, at: seq<nat>, data: seq<ActionResult<T, E>>, d: T)
    requires lines != [] && k < |lines| && Carries(codec, lines[0], d) && Delivered(codec, lines[1..][..k], at, data)
    ensures Delivered(codec, lines[..k + 1], [0] + Moved(at), [ActionResult.Ok(d)] + data)
  {
    hide Noise, Carries, Moved;
    var later, all := lines[1..][..k], lines[..k + 1];
    assert forall i :: 0 <= i < k ==> later[i] == all[i + 1];
    assert all[0] == lines[0];
    var moved, out := [0] + Moved(at), [ActionResult.Ok(d)] + data;
    forall i | 0 <= i < |moved|
      ensures moved[i] < |all| && out[i].Ok? && Carries(codec, all[moved[i]], out[i].data)
    {
      if i > 0 {
        assert moved[i] == at[i - 1] + 1 && out[i] == data[i - 1];
      }
    }
    forall j: nat | j < |all| && !Noise(codec, all[j]) ensures j in moved {
      if j > 0 {
        assert j - 1 in at;
      }
    }
  }

  /**
   * Of any body: the data of each line that carries some, in order, up to the first line that ends or
   * fails the stream, and then what that line or the lack of one means.
   */
  lemma {:induction false} DecodesTo<T, E>(codec: Codec<T, E>, lines: seq<Bytes>)
    returns (k: nat, at: seq<nat>, data: seq<ActionResult<T, E>>, last: seq<ActionResult<T, E>>)
    ensures Outcome(codec, Read(codec, lines)) == data + last && k <= |lines|
    ensures Delivered(codec, lines[..k], at, data) && StopsWith(codec, lines, k, last)
  {
    hide Read, Noise, Carries, Fails, Ends, ParseLine, Delivered, StopsWith;
    NothingDelivered(codec, lines);
    if lines == [] {
      k, at, data, last := 0, [], [], [Error(codec.interrupted)];
      return;
    }
    assert lines == [lines[0]] + lines[1..];
    ReadStep(codec, lines[0], lines[1..]);
    Meant(codec, lines[0]);
    k, at, data, last := DecodesTo(codec, lines[1..]);
    match ParseLine(codec, lines[0]) {
      case Skip =>
        NoiseFirst(codec, lines, k, at, data);
        StopsLater(codec, lines, k, last);
        k, at := k + 1, Moved(at);
      case Item(d) =>
        DataFirst(codec, lines, k, at, data, d);
        StopsLater(codec, lines, k, last);
        YieldsFirst(codec, d, Read(codec, lines[1..]), data, last);
        k, at, data := k + 1, [0] + Moved(at), [ActionResult.Ok(d)] + data;
      case Last(error) =>
        k, at, data, last := 0, [], [], [Error(error)];
        StopsHere(codec, lines, last);
      case End =>
        k, at, data, last := 0, [], [], [];
        StopsHere(codec, lines, last);
    }
  }

  lemma StopsLater<T, E>(codec: Codec<T, E>, lines: seq<Bytes>, k: nat, last: seq<ActionResult<T, E>>)
    requires lines != [] && StopsWith(codec, lines[1..], k, last)
    ensures StopsWith(codec, lines, k + 1, last)
  {
    hide Ends, Fails;
  }

  lemma StopsHere<T, E>(codec: Codec<T, E>, lines: seq<Bytes>, last: seq<ActionResult<T, E>>)
    requires lines != []
    requires match ParseLine(codec, lines[0])
             case End => last == []
             case Last(error) => last == [Error(error)]
             case _ => false
    ensures StopsWith(codec, lines, 0, last)
    ensures Outcome(codec, Read(codec, lines)) == [] + last
  {
  }

  lemma YieldsFirst<T, E>(codec: Codec<T, E>, d: T, rest: Reading<T, E>,
                          data: seq<ActionResult<T, E>>, last: seq<ActionResult<T, E>>)
    requires Outcome(codec, rest) == data + last
    ensures Outcome(codec, Before([ActionResult.Ok(d)], rest)) == [ActionResult.Ok(d)] + data + last
  {
    var first, after := [ActionResult.Ok(d)], if rest.stop.Running? then [Error(codec.interrupted)] else [];
    assert first + rest.items + after == first + (rest.items + after);
    assert first + (data + last) == first + data + last;
  }

  /** The client's stream, with its own cap: what it yields for any body, and when that is all of it. */
  method Stream<T, E>(codec: Codec<T, E>, deliveries: seq<Delivery>) returns (out: seq<ActionResult<T, E>>)
    ensures Shaped(out) && out == Decoded(codec, Received(MAX_FRAME_BYTES, [], deliveries))
    ensures AllChunks(deliveries) && NeverOverfull(MAX_FRAME_BYTES, deliveries) ==>
              var whole := Body(deliveries) + [NEWLINE];
              out == Decoded(codec, whole) && (!EndsInError(out) <==> EndFirst(codec, Lines(whole)))
  {
    hide Received, Shaped, EndsInError, EndFirst, Lines, NeverOverfull, Body;
    out := StreamWith(codec, MAX_FRAME_BYTES, deliveries);
    OutputShape(codec, MAX_FRAME_BYTES, deliveries);
    if AllChunks(deliveries) {
      ReceivedAllIff(MAX_FRAME_BYTES, deliveries);
    }
  }
}
