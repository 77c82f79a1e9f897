/** A download that survives a dropped link (installer/main.go resumingReader): after a break the reader asks
    again for the bytes from where it stopped, with a byte range as in section 14.2 of RFC 9110. */
module Resume {
  import opened Wrappers

  type Byte = int

  const MAX_RESUMES: nat := 60
  const MAX_EMPTY: nat := 100

  /** The connection being read: at a position of the source, or the empty body that stands in for one after a
      reconnect has failed. */
  datatype Body = Live(pos: nat) | Empty

  /** What comes back to a request: nothing, or a status; `skew` is how far from the offset asked for a partial
      answer really starts. */
  datatype Answer = NoAnswer | Status(code: nat, skew: nat)

  datatype Kind = Bytes(n: nat) | Nothing | EndOfBody | Broken

  /** What the k-th turn of the loop meets: the body's next move, and, should it come to that, whether the
      caller has given up and what a new request is answered. */
  datatype Weather = Weather(kind: Kind, cancelled: bool, answer: Answer)

  type Line = nat -> Weather

  datatype Reader = Reader(offset: nat, tries: nat, body: Body)

  datatype Outcome = Data(chunk: seq<Byte>) | Eof | Failed

  /** connect: the body for a request from this offset, or none if the answer is not the one expected. A whole
      answer to a request for a part is refused. */
  function Connect(offset: nat, a: Answer): Option<Body> {
    if a.Status? && offset == 0 && a.code == 200 then Some(Live(0))
    else if a.Status? && offset > 0 && a.code == 206 then Some(Live(offset + a.skew))
    else None
  }

  /** A partial answer starts where asked (section 15.3.7 of RFC 9110). */
  predicate Honest(a: Answer) {
    a.Status? && a.code == 206 ==> a.skew == 0
  }

  datatype Raw = RawData(chunk: seq<Byte>) | RawNothing | RawEof | RawBroken

  function Min(a: nat, b: nat): nat {
    if a < b then a else b
  }

  /** One Read of the body. A body that ends early is an error, not an end. */
  function BodyRead(src: seq<Byte>, body: Body, want: nat, kind: Kind): Raw {
    match body
    case Empty => RawEof
    case Live(pos) =>
      match kind
      case Bytes(n) =>
        if pos < |src| && Min(n, want) > 0
        then RawData(src[pos..pos + Min(Min(n, want), |src| - pos)]) else RawNothing
      case Nothing => RawNothing
      case EndOfBody => if pos == |src| then RawEof else RawBroken
      case Broken => RawBroken
  }

  /** `lost` says at which offset a reconnect failed, if one did. */
  datatype Result = Result(outcome: Outcome, reader: Reader, lost: Option<nat>)

  /** Read, from turn k of the loop on. It ends because every turn that does not return uses up a retry, or an empty
      read of the current try. */
  function ReadFrom(src: seq<Byte>, r: Reader, want: nat, line: Line, k: nat, empty: nat): Result
    requires empty <= MAX_EMPTY
    decreases if r.tries <= MAX_RESUMES then MAX_RESUMES - r.tries else 0, MAX_EMPTY - empty
  {
    match BodyRead(src, r.body, want, line(k).kind)
    case RawData(chunk) => Result(Data(chunk), Reader(r.offset + |chunk|, 0, Live(r.body.pos + |chunk|)), None)
    case RawNothing =>
      if empty + 1 > MAX_EMPTY then Result(Failed, r, None)
      else ReadFrom(src, r, want, line, k + 1, empty + 1)
    case RawEof => Result(Eof, r, None)
    case RawBroken =>
      if line(k).cancelled then Result(Failed, r, None)
      else if r.tries + 1 > MAX_RESUMES then Result(Failed, r.(tries := r.tries + 1), None)
      else
        var body := Connect(r.offset, line(k).answer);
        if body.Some? then ReadFrom(src, r.(tries := r.tries + 1, body := body.value), want, line, k + 1, 0)
        else
          var rest := ReadFrom(src, r.(tries := r.tries + 1, body := Empty), want, line, k + 1, 0);
          rest.(lost := Some(r.offset))
  }

  /** The reader stands where the body stands. */
  predicate InStep(src: seq<Byte>, r: Reader) {
    r.offset <= |src| && (r.body.Live? ==> r.body.pos == r.offset)
  }

  ghost predicate HonestLine(line: Line) {
    forall k: nat :: Honest(line(k).answer)
  }

  /** What one Read promises: the bytes handed on are the next ones of the source; an end is reported at the end of the
      source or on a body that stands in for a lost connection; and a reconnect that failed ends the Read there and
      then, as an end, however many retries were left. */
  ghost predicate Promised(src: seq<Byte>, r: Reader, want: nat, x: Result) {
    && InStep(src, x.reader)
    && (x.outcome.Data? ==> r.offset < x.reader.offset && x.outcome.chunk == src[r.offset..x.reader.offset]
                            && |x.outcome.chunk| <= want)
    && (!x.outcome.Data? ==> x.reader.offset == r.offset)
    && (x.outcome.Eof? ==> x.reader.body.Empty? || x.reader.offset == |src|)
    && (x.reader.body.Empty? <==> r.body.Empty? || x.lost.Some?)
    && (x.lost.Some? ==> x.outcome.Eof? && x.lost.value == r.offset)
    && (r.body.Empty? ==> x.outcome.Eof? && x.lost.None?)
  }

  lemma DataPromised(src: seq<Byte>, r: Reader, want: nat, kind: Kind)
    requires InStep(src, r) && BodyRead(src, r.body, want, kind).RawData?
    ensures var chunk := BodyRead(src, r.body, want, kind).chunk;
            Promised(src, r, want, Result(Data(chunk), Reader(r.offset + |chunk|, 0, Live(r.body.pos + |chunk|)), None))
  {
  }

  lemma RetryPromised(src: seq<Byte>, r: Reader, next: Reader, want: nat, x: Result)
    requires r.body.Live? && next.offset == r.offset && Promised(src, next, want, x)
    ensures Promised(src, r, want, if next.body.Empty? then x.(lost := Some(r.offset)) else x)
  {
  }

  lemma {:induction false} ReadIsFaithful(src: seq<Byte>, r: Reader, want: nat, line: Line, k: nat, empty: nat)
    requires InStep(src, r) && HonestLine(line) && empty <= MAX_EMPTY
    ensures Promised(src, r, want, ReadFrom(src, r, want, line, k, empty))
    decreases if r.tries <= MAX_RESUMES then MAX_RESUMES - r.tries else 0, MAX_EMPTY - empty
  {
    match BodyRead(src, r.body, want, line(k).kind) {
      case RawData(chunk) => DataPromised(src, r, want, line(k).kind);
      case RawNothing =>
        if empty + 1 <= MAX_EMPTY {
          ReadIsFaithful(src, r, want, line, k + 1, empty + 1);
        }
      case RawEof =>
      case RawBroken =>
        if !line(k).cancelled && r.tries + 1 <= MAX_RESUMES {
          assert Honest(line(k).answer);
          var body := Connect(r.offset, line(k).answer);
          var next := r.(tries := r.tries + 1, body := if body.Some? then body.value else Empty);
          ReadIsFaithful(src, next, want, line, k + 1, 0);
          RetryPromised(src, r, next, want, ReadFrom(src, next, want, line, k + 1, 0));
        }
    }
  }

  // ---- A whole download ----

  datatype Call = Call(want: nat, line: Line)

  datatype Download = Download(reader: Reader, got: seq<Byte>, lost: Option<nat>, last: Option<Outcome>)

  /** The calls of a caller that stops at the first end or failure. */
  function Read(src: seq<Byte>, d: Download, c: Call): Download {
    if d.last.Some? && !d.last.value.Data? then d
    else
      var x := ReadFrom(src, d.reader, c.want, c.line, 0, 0);
      var got := d.got + if x.outcome.Data? then x.outcome.chunk else [];
      Download(x.reader, got, if d.lost.Some? then d.lost else x.lost, Some(x.outcome))
  }

  function ReadAll(src: seq<Byte>, calls: seq<Call>): Download {
    if calls == [] then Download(Reader(0, 0, Live(0)), [], None, None)
    else Read(src, ReadAll(src, calls[..|calls| - 1]), calls[|calls| - 1])
  }

  ghost predicate Faithful(src: seq<Byte>, d: Download) {
    && InStep(src, d.reader)
    && d.got == src[..d.reader.offset]
    && (d.reader.body.Empty? <==> d.lost.Some?)
    && (d.last == Some(Eof) ==> d.lost.Some? || d.reader.offset == |src|)
    && (d.lost.Some? ==> d.last == Some(Eof) && d.lost.value == d.reader.offset)
  }

  lemma NextCallFaithful(src: seq<Byte>, d: Download, c: Call)
    requires Faithful(src, d) && HonestLine(c.line)
    ensures Faithful(src, Read(src, d, c))
  {
    ReadIsFaithful(src, d.reader, c.want, c.line, 0, 0);
    var x := ReadFrom(src, d.reader, c.want, c.line, 0, 0);
    if x.outcome.Data? {
      assert src[..d.reader.offset] + src[d.reader.offset..x.reader.offset] == src[..x.reader.offset];
    }
  }

  /** Over every pattern of drops, empty reads and failed reconnects: what has been handed on is exactly the
      beginning of the source, none skipped and none repeated. */
  lemma {:induction false} DownloadIsAPrefix(src: seq<Byte>, calls: seq<Call>)
    requires forall i :: 0 <= i < |calls| ==> HonestLine(calls[i].line)
    ensures Faithful(src, ReadAll(src, calls))
  {
    if calls != [] {
      DownloadIsAPrefix(src, calls[..|calls| - 1]);
      NextCallFaithful(src, ReadAll(src, calls[..|calls| - 1]), calls[|calls| - 1]);
    }
  }

  /** A failed reconnect is the end of the download, reported as a clean one, with exactly the bytes before it: over
      every download, an end with bytes missing is reported if and only if a reconnect failed before the last byte. */
  lemma EndIsShortIff(src: seq<Byte>, calls: seq<Call>)
    requires forall i :: 0 <= i < |calls| ==> HonestLine(calls[i].line)
    ensures var d := ReadAll(src, calls);
            && (d.last == Some(Eof) && d.got != src <==> d.lost.Some? && d.lost.value < |src|)
            && (d.lost.Some? ==> d.last == Some(Eof) && d.lost.value <= |src| && d.got == src[..d.lost.value])
  {
    DownloadIsAPrefix(src, calls);
    var d := ReadAll(src, calls);
    assert |d.got| == d.reader.offset;
  }

  /** One break and one refused reconnect: the caller is told of a clean end with nothing delivered. */
  lemma FailedReconnectLooksLikeTheEnd(src: seq<Byte>, want: nat) returns (call: Call)
    requires src != []
    ensures HonestLine(call.line)
    ensures ReadAll(src, [call]).last == Some(Eof) && ReadAll(src, [call]).got == []
  {
    call := Call(want, (k: nat) => Weather(Broken, false, NoAnswer));
    var r := Reader(0, 0, Live(0));
    var next := r.(tries := 1, body := Empty);
    assert ReadFrom(src, next, want, call.line, 1, 0) == Result(Eof, next, None);
    assert ReadFrom(src, r, want, call.line, 0, 0) == Result(Eof, next, Some(0));
    assert [call][..0] == [];
    assert ReadAll(src, []) == Download(r, [], None, None);
    assert ReadAll(src, [call]) == Read(src, ReadAll(src, []), call);
  }

  // ---- As it runs ----

  function WithLost(x: Result, lost: Option<nat>): Result {
    if lost.Some? then x.(lost := lost) else x
  }

  class ResumingReader {
    var offset: nat
    var tries: nat
    var body: Body

    ghost function View(): Reader
      reads this
    {
      Reader(offset, tries, body)
    }

    constructor ()
      ensures View() == Reader(0, 0, Live(0))
    {
      offset, tries, body := 0, 0, Live(0);
    }

    /** Read: the loop of the program, turn by turn. */
    method ReadSome(src: seq<Byte>, want: nat, line: Line) returns (outcome: Outcome, ghost lost: Option<nat>)
      modifies this
      ensures Result(outcome, View(), lost) == ReadFrom(src, old(View()), want, line, 0, 0)
    {
      var empty: nat := 0;
      var k: nat := 0;
      lost := None;
      ghost var goal := ReadFrom(src, View(), want, line, 0, 0);
      while true
        invariant empty <= MAX_EMPTY
        invariant WithLost(ReadFrom(src, View(), want, line, k, empty), lost) == goal
        decreases if tries <= MAX_RESUMES then MAX_RESUMES - tries else 0, MAX_EMPTY - empty
      {
        var raw := BodyRead(src, body, want, line(k).kind);
        match raw {
          case RawData(chunk) =>
            offset := offset + |chunk|;
            tries := 0;
            body := Live(body.pos + |chunk|);
            return Data(chunk), lost;
          case RawNothing =>
            if empty + 1 > MAX_EMPTY {
              return Failed, lost;
            }
            empty := empty + 1;
          case RawEof =>
            return Eof, lost;
          case RawBroken =>
            empty := 0;
            if line(k).cancelled {
              return Failed, lost;
            }
            tries := tries + 1;
            if tries > MAX_RESUMES {
              return Failed, lost;
            }
            var next := Connect(offset, line(k).answer);
            if next.None? {
              body := Empty;
              lost := if lost.Some? then lost else Some(offset);
            } else {
              body := next.value;
            }
        }
        k := k + 1;
      }
    }
  }

  // ---- Giving up ----

  /** A server that answers the request for a part with the whole file ends the download: what follows the break is read
      as the end, and none of the file's beginning is handed on again. */
  lemma WholeAnswerEndsIt(src: seq<Byte>, r: Reader, want: nat, line: Line, k: nat)
    requires r.body.Live? && r.offset > 0 && r.tries < 60
    requires line(k).kind == Broken && !line(k).cancelled && line(k).answer == Status(200, 0)
    ensures var x := ReadFrom(src, r, want, line, k, 0);
            x.outcome == Eof && x.reader.offset == r.offset && x.lost == Some(r.offset)
  {
    var next := r.(tries := r.tries + 1, body := Empty);
    assert ReadFrom(src, next, want, line, k + 1, 0) == Result(Eof, next, None);
  }

  /** A break while retries are left: the download goes on from the same offset exactly if the new request is answered
      as it has to be, with the whole file at the beginning and with a part later; otherwise it ends here, looking
      complete. */
  lemma BreakMeans(src: seq<Byte>, r: Reader, want: nat, line: Line, k: nat)
    requires InStep(src, r) && r.body.Live? && r.tries < 60 && Honest(line(k).answer)
    requires line(k).kind == Broken && !line(k).cancelled
    ensures var expected := line(k).answer.Status? && line(k).answer.code == if r.offset == 0 then 200 else 206;
            ReadFrom(src, r, want, line, k, 0) ==
            if expected then ReadFrom(src, r.(tries := r.tries + 1), want, line, k + 1, 0)
            else Result(Eof, Reader(r.offset, r.tries + 1, Empty), Some(r.offset))
  {
    var body := Connect(r.offset, line(k).answer);
    if body.None? {
      var next := Reader(r.offset, r.tries + 1, Empty);
      assert ReadFrom(src, next, want, line, k + 1, 0) == Result(Eof, next, None);
    } else {
      assert body.value == Live(r.offset) == r.body;
    }
  }

  /** Every byte that arrives gives the full number of retries back. */
  lemma {:induction false} BytesRestoreRetries(src: seq<Byte>, r: Reader, want: nat, line: Line, k: nat, empty: nat)
    requires empty <= MAX_EMPTY
    ensures var x := ReadFrom(src, r, want, line, k, empty); x.outcome.Data? ==> x.reader.tries == 0
    decreases if r.tries <= MAX_RESUMES then MAX_RESUMES - r.tries else 0, MAX_EMPTY - empty
  {
    match BodyRead(src, r.body, want, line(k).kind)
    case RawNothing => if empty < MAX_EMPTY { BytesRestoreRetries(src, r, want, line, k + 1, empty + 1); }
    case RawBroken =>
      if !line(k).cancelled && r.tries < MAX_RESUMES {
        var body := Connect(r.offset, line(k).answer);
        var next := r.(tries := r.tries + 1, body := if body.Some? then body.value else Empty);
        BytesRestoreRetries(src, next, want, line, k + 1, 0);
      }
    case _ =>
  }

  /** The line breaks at this turn, and a new request from the offset is answered as expected. */
  predicate BreaksAndComesBack(line: Line, offset: nat, j: nat) {
    line(j).kind == Broken && !line(j).cancelled && Connect(offset, line(j).answer).Some?
  }

  /** A line that does nothing but break and come back is given up after the sixtieth reconnect without a byte. */
  lemma {:induction false} SixtyReconnects(src: seq<Byte>, r: Reader, want: nat, line: Line, k: nat)
    requires r.body.Live? && r.tries <= 60 && forall j: nat :: j >= k ==> BreaksAndComesBack(line, r.offset, j)
    ensures var x := ReadFrom(src, r, want, line, k, 0);
            x.outcome == Failed && x.reader.tries == 61 && x.reader.offset == r.offset && x.lost == None
    decreases 60 - r.tries
  {
    assert BreaksAndComesBack(line, r.offset, k);
    if r.tries < 60 {
      var next := r.(tries := r.tries + 1, body := Connect(r.offset, line(k).answer).value);
      SixtyReconnects(src, next, want, line, k + 1);
    }
  }

  predicate ComesEmpty(line: Line, j: nat) {
    line(j).kind == Nothing
  }

  /** A hundred empty reads in a row are waited out. */
  lemma {:induction false} HundredEmptyReads(src: seq<Byte>, r: Reader, want: nat, line: Line, k: nat, empty: nat,
      m: nat)
    requires r.body.Live? && r.body.pos < |src| && want > 0 && empty + m <= 100
    requires forall j: nat :: k <= j < k + m ==> ComesEmpty(line, j)
    requires line(k + m).kind.Bytes? && line(k + m).kind.n > 0
    ensures ReadFrom(src, r, want, line, k, empty).outcome.Data?
    decreases m
  {
    if m > 0 {
      assert ComesEmpty(line, k);
      HundredEmptyReads(src, r, want, line, k + 1, empty + 1, m - 1);
    }
  }

  /** One more is not. */
  lemma {:induction false} OneEmptyReadTooMany(src: seq<Byte>, r: Reader, want: nat, line: Line, k: nat, empty: nat)
    requires r.body.Live? && empty <= 100 && forall j: nat :: k <= j <= k + 100 - empty ==> ComesEmpty(line, j)
    ensures ReadFrom(src, r, want, line, k, empty) == Result(Failed, r, None)
    decreases 100 - empty
  {
    assert ComesEmpty(line, k);
    if empty < 100 { OneEmptyReadTooMany(src, r, want, line, k + 1, empty + 1); }
  }
}
