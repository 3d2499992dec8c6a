/** What the chunked reader makes of a stream, said about the stream as a whole. */
module SignalLaws {
  import opened Common
  import opened Text
  import Base64
  import opened Signal

  /** The bytes that the chunks from `i` on deliver before the first failure. */
  function Stream(chunks: seq<Chunk>, i: nat): string
    requires i <= |chunks|
    decreases |chunks| - i
  {
    if i == |chunks| || chunks[i].Failure? then "" else chunks[i].data + Stream(chunks, i + 1)
  }

  /** Why a stream ends. */
  function Ending(chunks: seq<Chunk>, i: nat): SignalError
    requires i <= |chunks|
    decreases |chunks| - i
  {
    if i == |chunks| then EndOfStream else if chunks[i].Failure? then ReceiveFailed else Ending(chunks, i + 1)
  }

  /** The simple reader: look for the first signal among the finished lines of everything. */
  function WholeInput(stream: string, ending: SignalError, prefix: string): Result<string, SignalError> {
    match FirstSignal(Pieces(stream, '\n'), prefix)
    case Some(payload) => Ok(payload)
    case None => Err(ending)
  }

  lemma PiecesAppend(s: string, t: string)
    ensures Pieces(s + t, '\n') == Pieces(s, '\n') + Pieces(Residue(s, '\n') + t, '\n')
    ensures Residue(s + t, '\n') == Residue(Residue(s, '\n') + t, '\n')
  {
    SplitAppend(s, t, '\n');
  }

  /** The reader finds what the whole input holds, however it is cut, unless it trips. */
  lemma {:induction false} ScanIsWhole(chunks: seq<Chunk>, i: nat, data: string, prefix: string)
    requires i <= |chunks| && '\n' !in data
    requires Scan(chunks, i, data, prefix) != Err(LineTooLarge)
    ensures Scan(chunks, i, data, prefix) == WholeInput(data + Stream(chunks, i), Ending(chunks, i), prefix)
    decreases |chunks| - i
  {
    hide Pieces, Residue;
    if i == |chunks| || chunks[i].Failure? {
      assert data + Stream(chunks, i) == data;
      PiecesNone(data, '\n');
    } else {
      var d := data + chunks[i].data;
      var rest := Stream(chunks, i + 1);
      assert data + Stream(chunks, i) == d + rest;
      PiecesAppend(d, rest);
      FirstSignalAppend(Pieces(d, '\n'), Pieces(Residue(d, '\n') + rest, '\n'), prefix);
      if FirstSignal(Pieces(d, '\n'), prefix).None? {
        ResidueFree(d, '\n');
        ScanIsWhole(chunks, i + 1, Residue(d, '\n'), prefix);
      }
    }
  }

  /** Chunking independence: two cuttings of the same stream that do not trip the cap give
      the same result. */
  lemma ChunkingIndependence(a: seq<Chunk>, b: seq<Chunk>, prefix: string)
    requires Stream(a, 0) == Stream(b, 0) && Ending(a, 0) == Ending(b, 0)
    requires Scan(a, 0, "", prefix) != Err(LineTooLarge) && Scan(b, 0, "", prefix) != Err(LineTooLarge)
    ensures Scan(a, 0, "", prefix) == Scan(b, 0, "", prefix)
  {
    ScanIsWhole(a, 0, "", prefix);
    ScanIsWhole(b, 0, "", prefix);
  }

  // --- Exactly when the cap trips --------------------------------------------------

  /** The first `n` chunks from `i` on, put together. */
  function Taken(chunks: seq<Chunk>, i: nat, n: nat): string
    requires i + n <= |chunks|
    decreases n
  {
    if n == 0 then "" else (match chunks[i] case Bytes(b) => b case Failure => "") + Taken(chunks, i + 1, n - 1)
  }

  /** Chunk `i + n` arrives, no signal is complete before it, and together with the
      unfinished line before it it is over the cap. */
  predicate Trips(chunks: seq<Chunk>, i: nat, data: string, prefix: string, n: nat) {
    && i + n < |chunks|
    && (forall k :: i <= k <= i + n ==> chunks[k].Bytes?)
    && FirstSignal(Pieces(data + Taken(chunks, i, n), '\n'), prefix).None?
    && |Residue(data + Taken(chunks, i, n), '\n')| + |chunks[i + n].data| > 1_048_576
  }

  ghost predicate EverTrips(chunks: seq<Chunk>, i: nat, data: string, prefix: string) {
    exists n: nat :: Trips(chunks, i, data, prefix, n)
  }

  lemma TripsNext(chunks: seq<Chunk>, i: nat, data: string, prefix: string, n: nat)
    requires i < |chunks| && chunks[i].Bytes? && '\n' !in data
    requires FirstSignal(Pieces(data + chunks[i].data, '\n'), prefix).None?
    ensures Trips(chunks, i, data, prefix, n + 1)
       <==> Trips(chunks, i + 1, Residue(data + chunks[i].data, '\n'), prefix, n)
  {
    hide Pieces, Residue, FirstSignal;
    if i + n + 1 < |chunks| {
      var d, t := data + chunks[i].data, Taken(chunks, i + 1, n);
      assert data + Taken(chunks, i, n + 1) == d + t;
      AfterTheChunk(d, t, prefix);
      SameChunks(chunks, i, n);
    }
  }

  lemma SameChunks(chunks: seq<Chunk>, i: nat, n: nat)
    requires i + n + 1 < |chunks| && chunks[i].Bytes?
    ensures (forall k :: i <= k <= i + (n + 1) ==> chunks[k].Bytes?)
       <==> (forall k :: i + 1 <= k <= i + 1 + n ==> chunks[k].Bytes?)
  {}

  /** A chunk without a signal leaves its residue, and the search goes on from there. */
  lemma AfterTheChunk(d: string, t: string, prefix: string)
    requires FirstSignal(Pieces(d, '\n'), prefix).None?
    ensures FirstSignal(Pieces(d + t, '\n'), prefix) == FirstSignal(Pieces(Residue(d, '\n') + t, '\n'), prefix)
    ensures Residue(d + t, '\n') == Residue(Residue(d, '\n') + t, '\n')
  {
    hide Pieces, Residue;
    PiecesAppend(d, t);
    FirstSignalAppend(Pieces(d, '\n'), Pieces(Residue(d, '\n') + t, '\n'), prefix);
  }

  lemma TripsNow(chunks: seq<Chunk>, i: nat, data: string, prefix: string)
    requires i < |chunks| && chunks[i].Bytes? && '\n' !in data
    ensures Trips(chunks, i, data, prefix, 0) <==> |data + chunks[i].data| > CAP
  {
    assert data + Taken(chunks, i, 0) == data;
    PiecesNone(data, '\n');
  }

  /** The reader reports a line too large exactly when some chunk trips the cap before any
      signal is complete. */
  lemma {:induction false} TooLargeIff(chunks: seq<Chunk>, i: nat, data: string, prefix: string)
    requires i <= |chunks| && '\n' !in data
    ensures Scan(chunks, i, data, prefix) == Err(LineTooLarge)
       <==> EverTrips(chunks, i, data, prefix)
    decreases |chunks| - i
  {
    hide Trips, Pieces, Residue;
    if i == |chunks| || chunks[i].Failure? {
      NoTrips(chunks, i, data, prefix);
    } else {
      var d := data + chunks[i].data;
      TripsNow(chunks, i, data, prefix);
      if |d| <= CAP {
        if FirstSignal(Pieces(d, '\n'), prefix).None? {
          ResidueFree(d, '\n');
          TooLargeIff(chunks, i + 1, Residue(d, '\n'), prefix);
          TripsLater(chunks, i, data, Residue(d, '\n'), prefix);
        } else {
          FoundBeforeTrip(chunks, i, data, prefix);
        }
      }
    }
  }

  lemma TripsLater(chunks: seq<Chunk>, i: nat, data: string, held: string, prefix: string)
    requires i < |chunks| && chunks[i].Bytes? && '\n' !in data && |data + chunks[i].data| <= CAP
    requires FirstSignal(Pieces(data + chunks[i].data, '\n'), prefix).None?
    requires held == Residue(data + chunks[i].data, '\n')
    ensures EverTrips(chunks, i, data, prefix) <==> EverTrips(chunks, i + 1, held, prefix)
  {
    hide Trips, Pieces, Residue, FirstSignal;
    TripsNow(chunks, i, data, prefix);
    if n: nat :| Trips(chunks, i, data, prefix, n) {
      TripsNext(chunks, i, data, prefix, n - 1);
    }
    var j := i + 1;
    if n: nat :| Trips(chunks, j, held, prefix, n) {
      TripsNext(chunks, i, data, prefix, n);
    }
  }

  lemma NoTrips(chunks: seq<Chunk>, i: nat, data: string, prefix: string)
    requires i <= |chunks| && (i < |chunks| ==> chunks[i].Failure?)
    ensures !EverTrips(chunks, i, data, prefix)
  {
    hide Pieces, Residue, FirstSignal;
    forall n: nat
      ensures !Trips(chunks, i, data, prefix, n)
    {
      assert i + n < |chunks| ==> !(forall k :: i <= k <= i + n ==> chunks[k].Bytes?);
    }
  }

  lemma FoundBeforeTrip(chunks: seq<Chunk>, i: nat, data: string, prefix: string)
    requires i < |chunks| && chunks[i].Bytes? && '\n' !in data && |data + chunks[i].data| <= CAP
    requires FirstSignal(Pieces(data + chunks[i].data, '\n'), prefix).Some?
    ensures !EverTrips(chunks, i, data, prefix)
  {
    forall n: nat
      ensures !Trips(chunks, i, data, prefix, n)
    {
      if n == 0 {
        TripsNow(chunks, i, data, prefix);
      } else if i + n < |chunks| {
        var d, t := data + chunks[i].data, Taken(chunks, i + 1, n - 1);
        assert data + Taken(chunks, i, n) == d + t;
        PiecesAppend(d, t);
        FirstSignalAppend(Pieces(d, '\n'), Pieces(Residue(d, '\n') + t, '\n'), prefix);
      }
    }
  }

  // --- Line lengths that decide ----------------------------------------------------

  /** Line `m` comes no later than the first signal. */
  predicate Relevant(lines: seq<string>, prefix: string, m: nat) {
    m < |lines| && FirstSignal(lines[..m], prefix).None?
  }

  /** If every line up to the first signal, with its newline, leaves room in the cap for a
      whole chunk, the cap never trips. */
  lemma {:induction false} ShortLinesNeverTrip(chunks: seq<Chunk>, i: nat, data: string, prefix: string, room: nat)
    requires i <= |chunks| && '\n' !in data
    requires forall k :: i <= k < |chunks| && chunks[k].Bytes? ==> |chunks[k].data| <= room
    requires forall m: nat :: Relevant(Split(data + Stream(chunks, i), '\n'), prefix, m) ==>
               |Split(data + Stream(chunks, i), '\n')[m]| + room <= CAP
    ensures Scan(chunks, i, data, prefix) != Err(LineTooLarge)
    decreases |chunks| - i
  {
    if i < |chunks| && chunks[i].Bytes? {
      var d, rest := data + chunks[i].data, Stream(chunks, i + 1);
      var all := Split(data + Stream(chunks, i), '\n');
      assert data + Stream(chunks, i) == d + rest;
      FirstLineHolds(data, Stream(chunks, i), prefix);
      if FirstSignal(Pieces(d, '\n'), prefix).None? {
        ResidueFree(d, '\n');
        SplitAppend(d, rest, '\n');
        var done := Pieces(d, '\n');
        var left := Split(Residue(d, '\n') + rest, '\n');
        forall m: nat | Relevant(left, prefix, m)
          ensures |left[m]| + room <= CAP
        {
          RelevantLater(done, left, prefix, m);
          assert all[|done| + m] == left[m];
        }
        ShortLinesNeverTrip(chunks, i + 1, Residue(d, '\n'), prefix, room);
      }
    }
  }

  lemma RelevantLater(done: seq<string>, left: seq<string>, prefix: string, m: nat)
    requires FirstSignal(done, prefix).None? && m < |left|
    ensures Relevant(done + left, prefix, |done| + m) <==> Relevant(left, prefix, m)
  {
    assert (done + left)[..|done| + m] == done + left[..m];
    FirstSignalAppend(done, left[..m], prefix);
  }

  /** What is held over begins the first of the lines still to come. */
  lemma FirstLineHolds(data: string, rest: string, prefix: string)
    requires '\n' !in data
    ensures Relevant(Split(data + rest, '\n'), prefix, 0)
    ensures |data| <= |Split(data + rest, '\n')[0]|
  {
    var s := data + rest;
    forall k | 0 <= k < |data|
      ensures s[k] != '\n'
    {
      assert s[k] == data[k];
    }
    assert Split(s, '\n')[..0] == [];
  }

  /** A line over the cap that comes no later than the first signal always trips it. */
  lemma {:induction false} LongLineTrips(chunks: seq<Chunk>, i: nat, data: string, prefix: string, m: nat)
    requires i <= |chunks| && '\n' !in data && |data| <= CAP
    requires Relevant(Split(data + Stream(chunks, i), '\n'), prefix, m)
    requires |Split(data + Stream(chunks, i), '\n')[m]| > 1_048_576
    ensures Scan(chunks, i, data, prefix) == Err(LineTooLarge)
    decreases |chunks| - i
  {
    hide Split, Pieces, Residue, FirstSignal;
    if i == |chunks| || chunks[i].Failure? {
      assert data + Stream(chunks, i) == data;
      SplitNone(data, '\n');
    } else {
      var d, rest := data + chunks[i].data, Stream(chunks, i + 1);
      assert data + Stream(chunks, i) == d + rest;
      if |d| <= CAP && FirstSignal(Pieces(d, '\n'), prefix).None? {
        ResidueFree(d, '\n');
        LongLineIsLeft(d, rest, prefix, m);
        LongLineTrips(chunks, i + 1, Residue(d, '\n'), prefix, m - |Pieces(d, '\n')|);
      } else if |d| <= CAP {
        LongLineIsLeft(d, rest, prefix, m);
      }
    }
  }

  /** A line longer than the text so far is not finished in it. */
  lemma LongLineIsLeft(d: string, rest: string, prefix: string, m: nat)
    requires |d| <= CAP && Relevant(Split(d + rest, '\n'), prefix, m) && |Split(d + rest, '\n')[m]| > CAP
    ensures m >= |Pieces(d, '\n')| && FirstSignal(Pieces(d, '\n'), prefix).None?
    ensures Relevant(Split(Residue(d, '\n') + rest, '\n'), prefix, m - |Pieces(d, '\n')|)
    ensures Split(d + rest, '\n')[m] == Split(Residue(d, '\n') + rest, '\n')[m - |Pieces(d, '\n')|]
  {
    hide Split, FirstSignal, Residue;
    var done, left := Pieces(d, '\n'), Split(Residue(d, '\n') + rest, '\n');
    SplitAppend(d, rest, '\n');
    ResidueFree(d, '\n');
    AmongTheRest(done, left, m);
    assert (done + left)[..m] == done + left[..m - |done|];
    FirstSignalAppend(done, left[..m - |done|], prefix);
  }

  lemma AmongTheRest(done: seq<string>, left: seq<string>, m: nat)
    requires m < |done + left| && |(done + left)[m]| > CAP
    requires forall k :: 0 <= k < |done| ==> |done[k]| <= CAP
    ensures m >= |done|
  {}

  /** Chunks of the size that a receive may return, and lines that leave room for one of them,
      never trip the cap: the reader is then the simple reader. */
  lemma ShortLinesRead(chunks: seq<Chunk>, prefix: string)
    requires forall k :: 0 <= k < |chunks| && chunks[k].Bytes? ==> |chunks[k].data| <= 65_536
    requires forall m: nat :: Relevant(Split(Stream(chunks, 0), '\n'), prefix, m) ==>
               |Split(Stream(chunks, 0), '\n')[m]| + 1 <= 1_048_576 - 65_536
    ensures Scan(chunks, 0, "", prefix) == WholeInput(Stream(chunks, 0), Ending(chunks, 0), prefix)
  {
    assert "" + Stream(chunks, 0) == Stream(chunks, 0);
    ShortLinesNeverTrip(chunks, 0, "", prefix, CHUNK);
    ScanIsWhole(chunks, 0, "", prefix);
  }

  // --- Between the two bounds the cutting decides ------------------------------------

  /** `n` chunks of the one byte 'a'. */
  function Drip(n: nat): seq<Chunk> {
    seq(n, _ => Bytes("a"))
  }

  lemma {:induction false} DripStream(n: nat, k: nat, rest: seq<Chunk>)
    requires k <= n
    ensures Stream(Drip(n) + rest, k) == seq(n - k, _ => 'a') + Stream(rest, 0)
    ensures Ending(Drip(n) + rest, k) == Ending(rest, 0)
    decreases n - k
  {
    if k == n {
      DripTail(n, rest, 0);
    } else {
      DripStream(n, k + 1, rest);
      assert seq(n - k, _ => 'a') == "a" + seq(n - k - 1, _ => 'a');
    }
  }

  lemma {:induction false} DripTail(n: nat, rest: seq<Chunk>, k: nat)
    requires k <= |rest|
    ensures Stream(Drip(n) + rest, n + k) == Stream(rest, k)
    ensures Ending(Drip(n) + rest, n + k) == Ending(rest, k)
    decreases |rest| - k
  {
    if k < |rest| {
      DripTail(n, rest, k + 1);
    }
  }

  /** While only 'a's arrive the reader just holds them. */
  lemma {:induction false} DripScan(n: nat, k: nat, data: string, rest: seq<Chunk>, prefix: string)
    requires k <= n <= CAP && data == seq(k, _ => 'a')
    ensures Scan(Drip(n) + rest, k, data, prefix) == Scan(Drip(n) + rest, n, seq(n, _ => 'a'), prefix)
    decreases n - k
  {
    if k < n {
      assert data + "a" == seq(k + 1, _ => 'a');
      PiecesNone(data + "a", '\n');
      DripScan(n, k + 1, data + "a", rest, prefix);
    }
  }

  lemma NoiseIsNoSignal(n: nat)
    requires n > 0
    ensures FirstSignal([seq(n, _ => 'a')], "p") == None
  {
    var line := seq(n, _ => 'a');
    TrimPlain(line);
    assert line[0] != 'p';
    assert FirstSignal([line][1..], "p") == None;
  }

  /** A line one byte short of the cap: whether the reader gets past it depends on whether its
      newline arrives alone or together with the signal that follows. */
  lemma CuttingDecides()
    ensures exists a: seq<Chunk>, b: seq<Chunk> ::
      && Stream(a, 0) == Stream(b, 0) && Ending(a, 0) == Ending(b, 0)
      && (forall k :: 0 <= k < |a| ==> a[k].Bytes? && 1 <= |a[k].data| <= 65_536)
      && (forall k :: 0 <= k < |b| ==> b[k].Bytes? && 1 <= |b[k].data| <= 65_536)
      && Scan(a, 0, "", "p") == Err(LineTooLarge)
      && Scan(b, 0, "", "p") == Ok("v")
  {
    var n := CAP - 1;
    var together, apart := [Bytes("\np v\n")], [Bytes("\n"), Bytes("p v\n")];
    var a, b := Drip(n) + together, Drip(n) + apart;
    DripStream(n, 0, together);
    DripStream(n, 0, apart);
    SameRest();
    DripScan(n, 0, "", together, "p");
    DripScan(n, 0, "", apart, "p");
    SignalAfterNoise(n, b);
  }

  lemma SameRest()
    ensures Stream([Bytes("\np v\n")], 0) == Stream([Bytes("\n"), Bytes("p v\n")], 0)
    ensures Ending([Bytes("\np v\n")], 0) == Ending([Bytes("\n"), Bytes("p v\n")], 0)
  {
    assert Stream([Bytes("\n"), Bytes("p v\n")], 1) == "p v\n";
  }

  lemma SignalAfterNoise(n: nat, b: seq<Chunk>)
    requires 0 < n == CAP - 1 && b == Drip(n) + [Bytes("\n"), Bytes("p v\n")]
    ensures Scan(b, n, seq(n, _ => 'a'), "p") == Ok("v")
  {
    hide Pieces, Residue, FirstSignal, IsSignal, Payload;
    var noise := seq(n, _ => 'a');
    assert noise + "\n" == noise + ['\n'] + "";
    PiecesFront(noise, "", '\n');
    PiecesNone("", '\n');
    NoiseIsNoSignal(n);
    assert [noise] + [] == [noise];
    assert b[n] == Bytes("\n") && |noise + "\n"| == CAP;
    assert Scan(b, n, noise, "p") == Scan(b, n + 1, "", "p");
    assert b[n + 1] == Bytes("p v\n");
    assert "" + "p v\n" == "p v" + ['\n'] + "";
    PiecesFront("p v", "", '\n');
    assert "p" + " " + "v" == "p v";
    ReadsBack("p", "v");
    assert FirstSignal(Pieces("" + "p v\n", '\n'), "p") == Some("v");
  }

  // --- What one side writes, the other reads -----------------------------------------

  lemma ReadsBack(prefix: string, value: string)
    requires prefix != "" && Plain(prefix[0])
    requires value != "" && Plain(value[0]) && Plain(value[|value| - 1])
    ensures FirstSignal([prefix + " " + value] + [], prefix) == Some(value)
    ensures IsSignal(prefix + " " + value, prefix) && Payload(prefix + " " + value, prefix) == value
  {
    var line := prefix + " " + value;
    TrimPlain(line);
    TrimPlain(value);
    assert line[|prefix| + 1..] == value;
    assert prefix + " " <= line;
  }

  /** Lines as they stand in the stream. */
  function Lines(lines: seq<string>): string {
    if lines == [] then "" else lines[0] + "\n" + Lines(lines[1..])
  }

  /** Whatever came before that was no signal, and whatever comes after. */
  lemma {:induction false} SignalFound(noise: seq<string>, prefix: string, value: string, tail: string)
    requires forall k :: 0 <= k < |noise| ==> '\n' !in noise[k] && !IsSignal(noise[k], prefix)
    requires prefix != "" && Plain(prefix[0]) && '\n' !in prefix
    requires value != "" && forall k :: 0 <= k < |value| ==> Plain(value[k])
    ensures FirstSignal(Pieces(Lines(noise) + (prefix + " " + value + "\n") + tail, '\n'), prefix) == Some(value)
  {
    hide Pieces, IsSignal, Payload;
    var line := prefix + " " + value;
    if noise == [] {
      assert Lines(noise) + (line + "\n") + tail == line + ['\n'] + tail;
      PiecesFront(line, tail, '\n');
      ReadsBack(prefix, value);
    } else {
      var rest := Lines(noise[1..]) + (line + "\n") + tail;
      assert Lines(noise) + (line + "\n") + tail == noise[0] + ['\n'] + rest;
      PiecesFront(noise[0], rest, '\n');
      SignalFound(noise[1..], prefix, value, tail);
      assert ([noise[0]] + Pieces(rest, '\n'))[1..] == Pieces(rest, '\n');
    }
  }

  /** Reading back what was written: after any lines that are no signals, before anything, in
      any chunks that do not trip the cap. `WriteWireSignal` appends exactly this line. */
  lemma WriteThenRead(j: Json, s: WireSignal, prefix: string, noise: seq<string>, tail: string, chunks: seq<Chunk>)
    requires Invertible(j) && s.description.sdp != ""
    requires prefix != "" && Plain(prefix[0]) && '\n' !in prefix
    requires forall k :: 0 <= k < |noise| ==> '\n' !in noise[k] && !IsSignal(noise[k], prefix)
    requires Stream(chunks, 0) == Lines(noise) + (prefix + " " + EncodeWireSignal(j, s) + "\n") + tail
    requires Scan(chunks, 0, "", prefix) != Err(LineTooLarge)
    ensures Scan(chunks, 0, "", prefix).Ok?
    ensures DecodeWireSignal(j, Scan(chunks, 0, "", prefix).value) == Ok(s)
  {
    hide Invertible, IsSignal, Base64.EncodeToString, DecodeWireSignal;
    Readable(j, s);
    SignalFound(noise, prefix, EncodeWireSignal(j, s), tail);
    ScanIsWhole(chunks, 0, "", prefix);
    assert "" + Stream(chunks, 0) == Stream(chunks, 0);
    DecodeEncode(j, s);
  }

  lemma Readable(j: Json, s: WireSignal)
    requires Invertible(j)
    ensures EncodeWireSignal(j, s) != ""
    ensures forall k :: 0 <= k < |EncodeWireSignal(j, s)| ==> Plain(EncodeWireSignal(j, s)[k])
  {
    Base64.EncodedPlain(j.marshal(s));
  }

  /** An older peer's line, a bare description, is read as that description without candidates. */
  lemma LegacyLineRead(j: Json, d: Description, prefix: string, noise: seq<string>, tail: string, chunks: seq<Chunk>)
    requires Invertible(j) && d.sdp != "" && j.marshalDescription(d) != []
    requires prefix != "" && Plain(prefix[0]) && '\n' !in prefix
    requires forall k :: 0 <= k < |noise| ==> '\n' !in noise[k] && !IsSignal(noise[k], prefix)
    requires Stream(chunks, 0)
          == Lines(noise) + (prefix + " " + Base64.EncodeToString(j.marshalDescription(d)) + "\n") + tail
    requires Scan(chunks, 0, "", prefix) != Err(LineTooLarge)
    ensures Scan(chunks, 0, "", prefix).Ok?
    ensures DecodeWireSignal(j, Scan(chunks, 0, "", prefix).value) == Ok(WireSignal(d, []))
  {
    hide Invertible, IsSignal, Base64.EncodeToString, DecodeWireSignal;
    var value := Base64.EncodeToString(j.marshalDescription(d));
    Base64.EncodedPlain(j.marshalDescription(d));
    SignalFound(noise, prefix, value, tail);
    ScanIsWhole(chunks, 0, "", prefix);
    assert "" + Stream(chunks, 0) == Stream(chunks, 0);
    DecodeLegacy(j, d);
  }
}
