/** Signals over a byte stream: one base64 line per signal, read back from chunks of any size.

    Strings are byte strings. JSON is an abstract codec, invertible by assumption of the
    lemmas that need it; base64 is concrete. */
module Signal {
  import opened Common
  import opened Text
  import Base64

  datatype Description = Description(kind: string, sdp: string)

  datatype WireSignal = WireSignal(description: Description, candidates: seq<string>)

  datatype SignalError = SendFailed | ReceiveFailed | EndOfStream | LineTooLarge | BadBase64 | BadJson | NoDescription

  /** What the JSON library does with the two types. */
  datatype Json = Json(marshal: WireSignal -> seq<Base64.Byte>,
                       marshalDescription: Description -> seq<Base64.Byte>,
                       unmarshal: seq<Base64.Byte> -> Option<WireSignal>,
                       unmarshalDescription: seq<Base64.Byte> -> Option<Description>)

  /** Reading back what was written. A bare description is no signal: read as one it has no
      SDP, or cannot be read at all. */
  ghost predicate Invertible(j: Json) {
    && (forall s :: j.marshal(s) != [] && j.unmarshal(j.marshal(s)) == Some(s))
    && (forall d :: j.unmarshalDescription(j.marshalDescription(d)) == Some(d))
    && (forall d :: j.unmarshal(j.marshalDescription(d)).Some? ==>
          j.unmarshal(j.marshalDescription(d)).value.description.sdp == "")
  }

  function EncodeWireSignal(j: Json, s: WireSignal): string {
    Base64.EncodeToString(j.marshal(s))
  }

  function DecodeWireSignal(j: Json, value: string): Result<WireSignal, SignalError> {
    match Base64.DecodeString(value)
    case None => Err(BadBase64)
    case Some(data) =>
      var s := j.unmarshal(data);
      if s.Some? && s.value.description.sdp != "" then Ok(s.value)
      else
        match j.unmarshalDescription(data)
        case None => Err(BadJson)
        case Some(d) => if d.sdp == "" then Err(NoDescription) else Ok(WireSignal(d, []))
  }

  /** Decoding undoes encoding exactly for the signals that carry a description. */
  lemma DecodeEncode(j: Json, s: WireSignal)
    requires Invertible(j)
    ensures DecodeWireSignal(j, EncodeWireSignal(j, s)) == Ok(s) <==> s.description.sdp != ""
  {
    Base64.RoundTrip(j.marshal(s));
  }

  /** A bare description, as older peers send it, decodes to itself with no candidates; an empty
      one is no description. */
  lemma DecodeLegacy(j: Json, d: Description)
    requires Invertible(j)
    ensures DecodeWireSignal(j, Base64.EncodeToString(j.marshalDescription(d)))
         == if d.sdp != "" then Ok(WireSignal(d, [])) else Err(NoDescription)
  {
    Base64.RoundTrip(j.marshalDescription(d));
  }

  /** A value with a character that is not base64, newlines aside, does not decode. */
  lemma DecodeGarbage(j: Json, value: string, k: nat)
    requires k < |value| && value[k] !in "=\r\n" && Base64.Value(value[k]).None?
    ensures DecodeWireSignal(j, value) == Err(BadBase64)
  {
    hide Base64.Value;
    var i := Base64.StripKeeps(value, k);
    Base64.QuadsAlphabet(Base64.Strip(value));
  }

  // --- Lines -----------------------------------------------------------------------

  predicate IsSignal(line: string, prefix: string) {
    HasPrefix(TrimSpace(line), prefix + " ")
  }

  function Payload(line: string, prefix: string): string
    requires IsSignal(line, prefix)
  {
    TrimSpace(TrimSpace(line)[|prefix| + 1..])
  }

  /** What is a signal and what is not, by the text: the prefix, a space, and the value, with
      any white space around them. */
  lemma SignalText(prefix: string, value: string)
    requires Tight(value) && value != "" && prefix != "" && Plain(prefix[0])
    ensures var line := prefix + " " + value;
            && IsSignal(line, prefix) && Payload(line, prefix) == value
            && IsSignal(line + "\n", prefix) && Payload(line + "\n", prefix) == value
            && IsSignal(prefix + " " + (" " + value), prefix) && Payload(prefix + " " + (" " + value), prefix) == value
    ensures Plain(prefix[|prefix| - 1]) ==> !IsSignal(prefix, prefix) && !IsSignal(prefix + "\n", prefix)
  {
    hide TrimSpace;
    var line := prefix + " " + value;
    TightLine(prefix, value);
    TrimTight(line);
    TrimTight(value);
    TrimNewline(line);
    assert line[|prefix| + 1..] == value;
    SpacedValue(prefix, value);
    if Plain(prefix[|prefix| - 1]) {
      TrimPlain(prefix);
      TrimNewline(prefix);
    }
  }

  lemma SpacedValue(prefix: string, value: string)
    requires Tight(value) && value != "" && prefix != "" && Plain(prefix[0])
    ensures var line := prefix + " " + (" " + value);
            IsSignal(line, prefix) && Payload(line, prefix) == value
  {
    var line := prefix + " " + (" " + value);
    assert Tight(line);
    TrimTight(line);
    assert line[|prefix| + 1..] == " " + value;
    assert (" " + value)[1..] == value;
    assert TrimLeft(" " + value) == TrimLeft(value);
    TrimTight(value);
  }

  lemma TightLine(prefix: string, value: string)
    requires Tight(value) && value != "" && prefix != "" && Plain(prefix[0])
    ensures Tight(prefix + " " + value)
  {}

  /** The payload of the first signal line. */
  function FirstSignal(lines: seq<string>, prefix: string): Option<string> {
    if lines == [] then None
    else if IsSignal(lines[0], prefix) then Some(Payload(lines[0], prefix))
    else FirstSignal(lines[1..], prefix)
  }

  lemma {:induction false} FirstSignalAppend(a: seq<string>, b: seq<string>, prefix: string)
    ensures FirstSignal(a + b, prefix)
         == if FirstSignal(a, prefix).Some? then FirstSignal(a, prefix) else FirstSignal(b, prefix)
  {
    if a == [] {
      assert a + b == b;
    } else {
      FirstSignalAppend(a[1..], b, prefix);
      assert (a + b)[1..] == a[1..] + b;
    }
  }

  lemma FirstSignalStep(lines: seq<string>, k: nat, prefix: string)
    requires k < |lines|
    ensures FirstSignal(lines[k..], prefix)
         == if IsSignal(lines[k], prefix) then Some(Payload(lines[k], prefix)) else FirstSignal(lines[k + 1..], prefix)
  {
    assert lines[k..][1..] == lines[k + 1..];
  }

  lemma NoSignalLeft(lines: seq<string>, prefix: string)
    ensures FirstSignal(lines[|lines|..], prefix) == None
  {}

  lemma EmptyIsNoSignal(prefix: string)
    ensures !IsSignal("", prefix)
  {
    assert TrimSpace("") == "";
  }

  // --- The stream ------------------------------------------------------------------

  const CAP: nat := 0x10_0000
  const CHUNK: nat := 0x1_0000

  /** What one receive yields. After the last chunk the stream has ended. */
  datatype Chunk = Bytes(data: string) | Failure

  class SignalConn {
    const chunks: seq<Chunk>
    const sendFaults: set<nat>
    var next: nat
    var sends: nat
    var written: string

    constructor (chunks: seq<Chunk>, sendFaults: set<nat>)
      ensures this.chunks == chunks && this.sendFaults == sendFaults && next == 0 && sends == 0 && written == ""
    {
      this.chunks := chunks;
      this.sendFaults := sendFaults;
      next, sends, written := 0, 0, "";
    }

    method Receive() returns (r: Result<string, SignalError>)
      requires next <= |chunks|
      modifies this`next
      ensures next <= |chunks|
      ensures old(next) == |chunks| ==> r == Err(EndOfStream) && next == old(next)
      ensures old(next) < |chunks| ==>
                && next == old(next) + 1
                && r == if chunks[old(next)].Bytes? then Ok(chunks[old(next)].data) else Err(ReceiveFailed)
    {
      if next == |chunks| {
        return Err(EndOfStream);
      }
      var chunk := chunks[next];
      next := next + 1;
      r := if chunk.Bytes? then Ok(chunk.data) else Err(ReceiveFailed);
    }

    /** One send; which of them fail is given. */
    method WriteLine(line: string) returns (err: Option<SignalError>)
      modifies this`written, this`sends
      ensures sends == old(sends) + 1
      ensures err == if old(sends) in sendFaults then Some(SendFailed) else None
      ensures written == if err.None? then old(written) + line + "\n" else old(written)
    {
      err := if sends in sendFaults then Some(SendFailed) else None;
      sends := sends + 1;
      if err.None? {
        written := written + (line + "\n");
      }
    }

    method WriteWireSignal(j: Json, prefix: string, s: WireSignal) returns (err: Option<SignalError>)
      modifies this`written, this`sends
      ensures sends == old(sends) + 1
      ensures err == if old(sends) in sendFaults then Some(SendFailed) else None
      ensures written
           == if err.None? then old(written) + (prefix + " " + EncodeWireSignal(j, s) + "\n") else old(written)
    {
      var value := EncodeWireSignal(j, s);
      err := WriteLine(prefix + " " + value);
    }

    method ReadWireSignal(j: Json, prefix: string) returns (r: Result<WireSignal, SignalError>)
      requires next <= |chunks|
      modifies this`next
      ensures next <= |chunks|
      ensures match Scan(chunks, old(next), "", prefix)
              case Err(e) => r == Err(e)
              case Ok(payload) => r == DecodeWireSignal(j, payload)
      ensures next == Stop(chunks, old(next), "", prefix)
    {
      hide Scan, Stop, Split, FirstSignal, DecodeWireSignal, TrimSpace;
      var data := "";
      ghost var scan, stop := Scan(chunks, next, "", prefix), Stop(chunks, next, "", prefix);
      while true
        invariant next <= |chunks| && Scan(chunks, next, data, prefix) == scan
        invariant Stop(chunks, next, data, prefix) == stop
        decreases |chunks| - next
      {
        ghost var at := next;
        ScanStep(chunks, next, data, prefix);
        var chunk := Receive();
        if chunk.Err? {
          return Err(chunk.error);
        }
        data := data + chunk.value;
        if |data| > CAP {
          return Err(LineTooLarge);
        }
        var lines := Split(data, '\n');
        var ended := data != "" && data[|data| - 1] == '\n';
        var complete := if ended then lines else lines[..|lines| - 1];
        CompleteLines(data, prefix);
        assert complete[0..] == complete;
        for k := 0 to |complete|
          invariant next == at + 1
          invariant FirstSignal(complete[k..], prefix) == FirstSignal(complete, prefix)
        {
          FirstSignalStep(complete, k, prefix);
          var line := TrimSpace(complete[k]);
          if !HasPrefix(line, prefix + " ") {
            continue;
          }
          return DecodeWireSignal(j, TrimSpace(line[|prefix| + 1..]));
        }
        NoSignalLeft(complete, prefix);
        if !ended {
          data := lines[|lines| - 1];
        } else {
          data := "";
        }
      }
    }
  }

  /** The reader as a function of the chunks from `i` on and the bytes held over. */
  function Scan(chunks: seq<Chunk>, i: nat, data: string, prefix: string): Result<string, SignalError>
    requires i <= |chunks|
    decreases |chunks| - i
  {
    if i == |chunks| then Err(EndOfStream)
    else
      match chunks[i]
      case Failure => Err(ReceiveFailed)
      case Bytes(b) =>
        if |data + b| > CAP then Err(LineTooLarge)
        else
          match FirstSignal(Pieces(data + b, '\n'), prefix)
          case Some(payload) => Ok(payload)
          case None => Scan(chunks, i + 1, Residue(data + b, '\n'), prefix)
  }

  /** How far it reads: one past the chunk that decided, never further. */
  function Stop(chunks: seq<Chunk>, i: nat, data: string, prefix: string): (n: nat)
    requires i <= |chunks|
    ensures i <= n <= |chunks|
    decreases |chunks| - i
  {
    if i == |chunks| then i
    else
      match chunks[i]
      case Failure => i + 1
      case Bytes(b) =>
        if |data + b| > CAP || FirstSignal(Pieces(data + b, '\n'), prefix).Some? then i + 1
        else Stop(chunks, i + 1, Residue(data + b, '\n'), prefix)
  }

  /** One more chunk, or none. */
  lemma ScanStep(chunks: seq<Chunk>, i: nat, data: string, prefix: string)
    requires i <= |chunks|
    ensures i == |chunks| ==>
              Scan(chunks, i, data, prefix) == Err(EndOfStream) && Stop(chunks, i, data, prefix) == i
    ensures i < |chunks| && chunks[i].Failure? ==>
              Scan(chunks, i, data, prefix) == Err(ReceiveFailed) && Stop(chunks, i, data, prefix) == i + 1
    ensures i < |chunks| && chunks[i].Bytes? ==>
              var d := data + chunks[i].data;
              var found := FirstSignal(Pieces(d, '\n'), prefix);
              if |d| > CAP then
                Scan(chunks, i, data, prefix) == Err(LineTooLarge) && Stop(chunks, i, data, prefix) == i + 1
              else if found.Some? then
                Scan(chunks, i, data, prefix) == Ok(found.value) && Stop(chunks, i, data, prefix) == i + 1
              else
                && Scan(chunks, i, data, prefix) == Scan(chunks, i + 1, Residue(d, '\n'), prefix)
                && Stop(chunks, i, data, prefix) == Stop(chunks, i + 1, Residue(d, '\n'), prefix)
  {
    hide FirstSignal, Pieces, Residue;
  }

  lemma {:induction false} ResidueEnded(s: string)
    requires s != ""
    ensures s[|s| - 1] == '\n' ==> Residue(s, '\n') == ""
  {
    var i := IndexOf(s, '\n');
    if i < |s| - 1 {
      ResidueEnded(s[i + 1..]);
      assert s == s[..i] + ['\n'] + s[i + 1..];
      PiecesFront(s[..i], s[i + 1..], '\n');
    } else if i == |s| - 1 {
      assert s == s[..i] + ['\n'] + "";
      PiecesFront(s[..i], "", '\n');
    }
  }

  /** When the data ends in a newline, the empty last piece counted as a line is harmless. */
  lemma CompleteLines(data: string, prefix: string)
    ensures data != "" && data[|data| - 1] == '\n' ==>
              && Residue(data, '\n') == ""
              && FirstSignal(Split(data, '\n'), prefix) == FirstSignal(Pieces(data, '\n'), prefix)
  {
    if data != "" && data[|data| - 1] == '\n' {
      ResidueEnded(data);
      EmptyIsNoSignal(prefix);
      assert Split(data, '\n') == Pieces(data, '\n') + [""];
      FirstSignalAppend(Pieces(data, '\n'), [""], prefix);
    }
  }
}
