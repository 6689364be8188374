/** The read buffer of `spawn_client_listener` in `bridge/src/stratum_listener.rs`: bytes arrive in arbitrary
    cuts and leave as trimmed, non-empty lines. Text is ASCII, so decoding a read is the identity. */
module LineFraming {

  predicate IsSpace(c: char) {
    c == ' ' || '\t' <= c <= '\r'
  }

  function TrimStart(s: string): string {
    if s != "" && IsSpace(s[0]) then TrimStart(s[1..]) else s
  }

  function TrimEnd(s: string): string {
    if s != "" && IsSpace(s[|s| - 1]) then TrimEnd(s[..|s| - 1]) else s
  }

  function Trim(s: string): string {
    TrimEnd(TrimStart(s))
  }

  /** NUL bytes are dropped from every read. */
  function Clean(s: string): string {
    if s == "" then "" else if s[0] == '\0' then Clean(s[1..]) else [s[0]] + Clean(s[1..])
  }

  /** Position of the first newline, or the length. */
  function Find(s: string): (i: nat)
    ensures i <= |s|
  {
    if s == "" || s[0] == '\n' then 0 else 1 + Find(s[1..])
  }

  /** The newline-terminated pieces of a text, and what follows the last of them. */
  function Pieces(s: string): seq<string> {
    var i := Find(s);
    if i == |s| then [] else [s[..i]] + Pieces(s[i + 1..])
  }

  function Rest(s: string): string {
    var i := Find(s);
    if i == |s| then s else Rest(s[i + 1..])
  }

  function HttpPrefixes(): set<string> {
    {"PRI * HTTP/2.0", "PRI * HTTP/2", "GET ", "POST ", "PUT ", "DELETE ", "HEAD ", "OPTIONS "}
  }

  predicate StartsLikeHttp(line: string) {
    exists p :: p in HttpPrefixes() && p <= line
  }

  /** A line no Stratum client sends: the connection is dropped. */
  predicate Mismatch(line: string) {
    StartsLikeHttp(line) || line == "SM"
  }

  /** Trimmed, without the empty ones. */
  function Lines(pieces: seq<string>): seq<string> {
    if pieces == [] then []
    else
      var t := Trim(pieces[0]);
      (if t == "" then [] else [t]) + Lines(pieces[1..])
  }

  predicate AllStratum(lines: seq<string>) {
    lines == [] || (!Mismatch(lines[0]) && AllStratum(lines[1..]))
  }

  /** The lines ahead of the first that drops the connection. */
  function UpToMismatch(lines: seq<string>): seq<string> {
    if lines == [] || Mismatch(lines[0]) then [] else [lines[0]] + UpToMismatch(lines[1..])
  }

  // ---- the listener ----

  datatype Conn = Conn(buffer: string, first: bool, open: bool, dispatched: seq<string>)

  /** The inner loop: cut, trim, dispatch, until no newline is left or a line drops the connection. */
  function Drain(c: Conn): Conn
    decreases |c.buffer|
  {
    var i := Find(c.buffer);
    if i == |c.buffer| then c
    else
      var line, rest := Trim(c.buffer[..i]), c.buffer[i + 1..];
      if line == "" then Drain(c.(buffer := rest))
      else if Mismatch(line) then c.(buffer := rest, open := false)
      else Drain(c.(buffer := rest, dispatched := c.dispatched + [line]))
  }

  lemma {:induction false} DrainOnce(c: Conn, i: nat, line: string, rest: string)
    requires i == Find(c.buffer) < |c.buffer| && line == Trim(c.buffer[..i]) && rest == c.buffer[i + 1..]
    ensures line == "" ==> Drain(c) == Drain(c.(buffer := rest))
    ensures line != "" && Mismatch(line) ==> Drain(c) == c.(buffer := rest, open := false)
    ensures line != "" && !Mismatch(line) ==> Drain(c) == Drain(c.(buffer := rest, dispatched := c.dispatched + [line]))
  {
  }

  function FirstLine(s: string): string {
    s[..Find(s)]
  }

  /** One read. The very first is also checked for a foreign protocol before any line is complete. */
  function Feed(c: Conn, chunk: string): Conn {
    if !c.open then c
    else
      var data := Clean(chunk);
      if c.first && Mismatch(Trim(FirstLine(data))) then c.(open := false)
      else Drain(c.(first := false, buffer := c.buffer + data))
  }

  function FeedAll(chunks: seq<string>): Conn {
    if chunks == [] then Conn("", true, true, []) else Feed(FeedAll(chunks[..|chunks| - 1]), chunks[|chunks| - 1])
  }

  function Join(chunks: seq<string>): string {
    if chunks == [] then "" else Join(chunks[..|chunks| - 1]) + chunks[|chunks| - 1]
  }

  /** What a stream should dispatch, said without buffer or cuts. */
  function Expected(stream: string): seq<string> {
    UpToMismatch(Lines(Pieces(Clean(stream))))
  }

  // ---- texts ----

  lemma {:induction false} CleanConcat(a: string, b: string)
    ensures Clean(a + b) == Clean(a) + Clean(b)
  {
    if a == "" {
      assert a + b == b;
    } else {
      CleanConcat(a[1..], b);
      TailConcat(a, b);
    }
  }

  lemma CleanOne(c: char)
    ensures Clean([c]) == if c == '\0' then "" else [c]
  {
    assert [c][1..] == "";
  }

  lemma {:induction false} CleanHasNoNul(s: string)
    ensures '\0' !in Clean(s)
    ensures forall c :: c != '\0' ==> (c in Clean(s) <==> c in s)
  {
    if s != "" {
      CleanHasNoNul(s[1..]);
      assert s == [s[0]] + s[1..];
    }
  }

  lemma SpacesAre(c: char)
    ensures IsSpace(c) <==> c in {' ', '\t', '\n', '\U{0B}', '\U{0C}', '\r'}
  {
  }

  /** Which lines drop the connection. A JSON object never does. */
  lemma MismatchIs(line: string)
    ensures Mismatch(line) <==>
            || "PRI * HTTP/2" <= line || line == "SM"
            || "GET " <= line || "POST " <= line || "PUT " <= line || "DELETE " <= line || "HEAD " <= line || "OPTIONS " <= line
    ensures line != "" && line[0] == '{' ==> !Mismatch(line)
  {
    if "PRI * HTTP/2.0" <= line {
      assert "PRI * HTTP/2" <= "PRI * HTTP/2.0";
    }
    assert forall p :: p in HttpPrefixes() && p <= line ==> line[0] == p[0];
  }

  lemma {:induction false} FindIsFirst(s: string)
    ensures Find(s) < |s| ==> s[Find(s)] == '\n'
    ensures '\n' !in s[..Find(s)]
  {
    if s != "" && s[0] != '\n' {
      FindIsFirst(s[1..]);
      assert s[..Find(s)] == [s[0]] + s[1..][..Find(s[1..])];
    }
  }

  lemma {:induction false} FindConcat(a: string, b: string)
    ensures Find(a + b) == if Find(a) < |a| then Find(a) else |a| + Find(b)
  {
    if a == "" {
      assert a + b == b;
    } else {
      FindConcat(a[1..], b);
      assert (a + b)[1..] == a[1..] + b;
    }
  }

  lemma {:induction false} PiecesOfWhole(s: string, i: nat)
    requires i == Find(s) < |s|
    ensures Pieces(s) == [s[..i]] + Pieces(s[i + 1..]) && Rest(s) == Rest(s[i + 1..])
  {
  }

  /** Cutting a text anywhere and carrying the unfinished piece over gives the same pieces. */
  lemma {:induction false} PiecesConcat(a: string, b: string)
    ensures Pieces(a + b) == Pieces(a) + Pieces(Rest(a) + b)
    ensures Rest(a + b) == Rest(Rest(a) + b)
    decreases |a|
  {
    var i := Find(a);
    FindConcat(a, b);
    if i < |a| {
      var head, tail := a[..i], a[i + 1..];
      PiecesConcat(tail, b);
      CutConcat(a, b, i);
      PiecesOfWhole(a, i);
      PiecesOfWhole(a + b, i);
      Assoc([head], Pieces(tail), Pieces(Rest(tail) + b));
    } else {
      assert [] + Pieces(a + b) == Pieces(a + b);
    }
  }

  lemma CutConcat<T>(a: seq<T>, b: seq<T>, i: nat)
    requires i < |a|
    ensures (a + b)[..i] == a[..i] && (a + b)[i + 1..] == a[i + 1..] + b
  {
  }

  lemma Assoc<T>(x: seq<T>, y: seq<T>, z: seq<T>)
    ensures x + (y + z) == (x + y) + z
  {
  }

  lemma TailConcat<T>(a: seq<T>, b: seq<T>)
    requires a != []
    ensures (a + b)[0] == a[0] && (a + b)[1..] == a[1..] + b
  {
  }

  lemma {:induction false} LinesConcat(a: seq<string>, b: seq<string>)
    ensures Lines(a + b) == Lines(a) + Lines(b)
  {
    if a == [] {
      assert a + b == b;
    } else {
      LinesConcat(a[1..], b);
      TailConcat(a, b);
      var t := Trim(a[0]);
      Assoc(if t == "" then [] else [t], Lines(a[1..]), Lines(b));
    }
  }

  lemma {:induction false} UpToConcat(a: seq<string>, b: seq<string>)
    ensures UpToMismatch(a + b) == if AllStratum(a) then a + UpToMismatch(b) else UpToMismatch(a)
  {
    if a == [] {
      assert a + b == b;
    } else {
      UpToConcat(a[1..], b);
      TailConcat(a, b);
      Assoc([a[0]], a[1..], UpToMismatch(b));
      assert a == [a[0]] + a[1..];
    }
  }

  /** A foreign line ends the dispatching, and with it the connection. */
  lemma ForeignEnds(a: seq<string>, line: string, b: seq<string>)
    requires Mismatch(line)
    ensures UpToMismatch(a + [line] + b) == UpToMismatch(a) && !AllStratum(a + [line] + b)
  {
    UpToConcat(a + [line], b);
    UpToConcat(a, [line]);
    NotAll(a, line, b);
    if AllStratum(a) {
      UpToAll(a);
      assert a + [] == a;
    }
  }

  lemma {:induction false} NotAll(a: seq<string>, line: string, b: seq<string>)
    requires Mismatch(line)
    ensures !AllStratum(a + [line] + b) && !AllStratum(a + [line])
  {
    if a != [] {
      NotAll(a[1..], line, b);
      assert (a + [line] + b)[1..] == a[1..] + [line] + b && (a + [line])[1..] == a[1..] + [line];
    }
  }

  lemma UpToAll(a: seq<string>)
    requires AllStratum(a)
    ensures UpToMismatch(a) == a
  {
    UpToConcat(a, []);
    assert a + [] == a;
  }

  /** The inner loop dispatches the expected part of its buffer and keeps the unfinished piece. */
  lemma {:induction false} DrainIs(c: Conn)
    requires c.open
    ensures var lines := Lines(Pieces(c.buffer));
            && Drain(c).dispatched == c.dispatched + UpToMismatch(lines)
            && Drain(c).open == AllStratum(lines) && Drain(c).first == c.first
            && (Drain(c).open ==> Drain(c).buffer == Rest(c.buffer))
    decreases |c.buffer|
  {
    var i := Find(c.buffer);
    if i < |c.buffer| {
      var line, rest := Trim(c.buffer[..i]), c.buffer[i + 1..];
      var lines := Lines(Pieces(rest));
      DrainOnce(c, i, line, rest);
      LinesOnce(c.buffer, i, line, rest);
      if line == "" {
        DrainIs(c.(buffer := rest));
      } else {
        UpToOnce(line, lines);
        if !Mismatch(line) {
          DrainIs(c.(buffer := rest, dispatched := c.dispatched + [line]));
          Assoc(c.dispatched, [line], UpToMismatch(lines));
        }
      }
    }
  }

  lemma {:induction false} LinesOnce(buffer: string, i: nat, line: string, rest: string)
    requires i == Find(buffer) < |buffer| && line == Trim(buffer[..i]) && rest == buffer[i + 1..]
    ensures Lines(Pieces(buffer)) == if line == "" then Lines(Pieces(rest)) else [line] + Lines(Pieces(rest))
    ensures Rest(buffer) == Rest(rest)
  {
    assert Pieces(buffer) == [buffer[..i]] + Pieces(rest);
    LinesMore(buffer[..i], Pieces(rest));
  }

  lemma {:induction false} LinesMore(piece: string, pieces: seq<string>)
    ensures Lines([piece] + pieces) == if Trim(piece) == "" then Lines(pieces) else [Trim(piece)] + Lines(pieces)
  {
    assert ([piece] + pieces)[1..] == pieces;
  }

  lemma {:induction false} UpToOnce(line: string, lines: seq<string>)
    ensures UpToMismatch([line] + lines) == if Mismatch(line) then [] else [line] + UpToMismatch(lines)
    ensures AllStratum([line] + lines) == (!Mismatch(line) && AllStratum(lines))
  {
    assert ([line] + lines)[1..] == lines;
  }

  // ---- whole streams ----

  /** What holds of the connection after the reads making up `stream`, none of them refused as a first read. */
  ghost predicate InStep(c: Conn, stream: string) {
    var lines := Lines(Pieces(Clean(stream)));
    && c.dispatched == UpToMismatch(lines) && c.open == AllStratum(lines)
    && (c.open ==> c.buffer == Rest(Clean(stream)))
  }

  lemma DrainInStep(c: Conn, stream: string, chunk: string)
    requires InStep(c, stream) && c.open
    ensures var c' := Drain(c.(first := false, buffer := c.buffer + Clean(chunk))); InStep(c', stream + chunk) && !c'.first
  {
    var a, b := Clean(stream), Clean(chunk);
    CleanConcat(stream, chunk);
    PiecesConcat(a, b);
    LinesConcat(Pieces(a), Pieces(Rest(a) + b));
    var old_, new_ := Lines(Pieces(a)), Lines(Pieces(Rest(a) + b));
    UpToAll(old_);
    UpToConcat(old_, new_);
    AllConcat(old_, new_);
    DrainIs(c.(first := false, buffer := c.buffer + b));
  }

  lemma {:induction false} AllConcat(a: seq<string>, b: seq<string>)
    ensures AllStratum(a + b) <==> AllStratum(a) && AllStratum(b)
  {
    if a == [] {
      assert a + b == b;
    } else {
      AllConcat(a[1..], b);
      TailConcat(a, b);
    }
  }

  lemma ClosedInStep(c: Conn, stream: string, chunk: string)
    requires InStep(c, stream) && !c.open
    ensures InStep(c, stream + chunk)
  {
    var a, b := Clean(stream), Clean(chunk);
    CleanConcat(stream, chunk);
    PiecesConcat(a, b);
    LinesConcat(Pieces(a), Pieces(Rest(a) + b));
    UpToConcat(Lines(Pieces(a)), Lines(Pieces(Rest(a) + b)));
    AllConcat(Lines(Pieces(a)), Lines(Pieces(Rest(a) + b)));
  }

  /** The first read is not taken for another protocol. */
  predicate FirstAccepted(chunks: seq<string>) {
    chunks == [] || !Mismatch(Trim(FirstLine(Clean(chunks[0]))))
  }

  lemma {:induction false} FeedAllInStep(chunks: seq<string>)
    requires FirstAccepted(chunks)
    ensures InStep(FeedAll(chunks), Join(chunks))
    ensures FeedAll(chunks).first <==> chunks == []
  {
    if chunks != [] {
      var n := |chunks| - 1;
      var before := FeedAll(chunks[..n]);
      FeedAllInStep(chunks[..n]);
      assert n > 0 ==> chunks[..n][0] == chunks[0];
      if before.open {
        DrainInStep(before, Join(chunks[..n]), chunks[n]);
      } else {
        ClosedInStep(before, Join(chunks[..n]), chunks[n]);
      }
    }
  }

  // ---- the first read ----

  ghost predicate AllSpace(s: string) {
    forall i :: 0 <= i < |s| ==> IsSpace(s[i])
  }

  lemma {:induction false} TrimStartCuts(s: string) returns (n: nat)
    ensures n <= |s| && AllSpace(s[..n]) && TrimStart(s) == s[n..]
    ensures TrimStart(s) != "" ==> !IsSpace(TrimStart(s)[0])
  {
    n := 0;
    if s != "" && IsSpace(s[0]) {
      n := TrimStartCuts(s[1..]);
      n := n + 1;
      assert s[..n] == [s[0]] + s[1..][..n - 1];
    }
  }

  lemma {:induction false} TrimEndCuts(s: string) returns (n: nat)
    ensures n <= |s| && AllSpace(s[n..]) && TrimEnd(s) == s[..n]
    ensures n > 0 ==> !IsSpace(s[n - 1])
  {
    n := |s|;
    if s != "" && IsSpace(s[|s| - 1]) {
      n := TrimEndCuts(s[..|s| - 1]);
      assert s[n..] == s[..|s| - 1][n..] + [s[|s| - 1]];
    }
  }

  /** Trimming takes white space off both ends and leaves none there. */
  lemma {:induction false} TrimMeans(s: string) returns (i: nat, j: nat)
    ensures i <= j <= |s| && Trim(s) == s[i..j] && AllSpace(s[..i]) && AllSpace(s[j..])
    ensures i < j ==> !IsSpace(s[i]) && !IsSpace(s[j - 1])
  {
    i := TrimStartCuts(s);
    var t := s[i..];
    j := TrimEndCuts(t);
    assert t[j..] == s[i + j..] && t[..j] == s[i..i + j];
    j := i + j;
  }

  lemma {:induction false} TrimStartConcat(p: string, r: string)
    requires TrimStart(p) != ""
    ensures TrimStart(p + r) == TrimStart(p) + r
  {
    TailConcat(p, r);
    if IsSpace(p[0]) {
      TrimStartConcat(p[1..], r);
    }
  }

  lemma {:induction false} TrimEndConcat(s: string, r: string)
    requires TrimEnd(s) != ""
    ensures TrimEnd(s) <= TrimEnd(s + r)
    decreases |r|
  {
    if r == "" {
      assert s + r == s;
    } else {
      var n := |r| - 1;
      assert (s + r)[..|s + r| - 1] == s + r[..n];
      TrimEndConcat(s, r[..n]);
      TrimEndShrinks(s);
    }
  }

  lemma {:induction false} TrimEndShrinks(s: string)
    ensures TrimEnd(s) <= s
  {
    if s != "" && IsSpace(s[|s| - 1]) {
      TrimEndShrinks(s[..|s| - 1]);
    }
  }

  lemma TrimConcat(p: string, r: string)
    requires Trim(p) != ""
    ensures Trim(p) <= Trim(p + r)
  {
    TrimStartConcat(p, r);
    TrimEndConcat(TrimStart(p), r);
  }

  lemma {:induction false} JoinHead(chunks: seq<string>) returns (more: string)
    requires chunks != []
    ensures Join(chunks) == chunks[0] + more
    decreases |chunks|
  {
    var n := |chunks| - 1;
    if n == 0 {
      assert chunks[..0] == [];
      more := "";
    } else {
      var m := JoinHead(chunks[..n]);
      more := m + chunks[n];
      Assoc(chunks[0], m, chunks[n]);
    }
  }

  /** A first read that starts like HTTP belongs to a stream whose first line does. */
  lemma HttpStaysHttp(data: string, more: string)
    requires StartsLikeHttp(Trim(FirstLine(data)))
    ensures UpToMismatch(Lines(Pieces(data + more))) == []
  {
    var s := data + more;
    FindConcat(data, more);
    if Find(s) < |s| {
      var begun, head := FirstLine(data), s[..Find(s)];
      var r := head[|begun|..];
      assert head == begun + r;
      var p :| p in HttpPrefixes() && p <= Trim(begun);
      TrimConcat(begun, r);
      assert p <= Trim(head);
      assert Pieces(s)[0] == head;
    }
  }

  lemma {:induction false} RefusedDispatchesNothing(chunks: seq<string>)
    requires !FirstAccepted(chunks)
    ensures FeedAll(chunks).dispatched == [] && !FeedAll(chunks).open
  {
    var n := |chunks| - 1;
    if n == 0 {
      assert chunks[..0] == [];
    } else {
      assert chunks[..n][0] == chunks[0];
      RefusedDispatchesNothing(chunks[..n]);
    }
  }

  /** However a stream is cut into reads, the same lines are dispatched: the trimmed non-empty lines ahead of
      the first foreign one. The one exception is a first read holding just "SM" on its first line: it is
      refused at once, which is right exactly when the stream has nothing to dispatch. */
  lemma CutsDoNotMatterIff(chunks: seq<string>)
    ensures FeedAll(chunks).dispatched == Expected(Join(chunks)) <==>
            chunks == [] || Trim(FirstLine(Clean(chunks[0]))) != "SM" || Expected(Join(chunks)) == []
  {
    if FirstAccepted(chunks) {
      FeedAllInStep(chunks);
    } else {
      RefusedDispatchesNothing(chunks);
      if StartsLikeHttp(Trim(FirstLine(Clean(chunks[0])))) {
        var more := JoinHead(chunks);
        CleanConcat(chunks[0], more);
        HttpStaysHttp(Clean(chunks[0]), Clean(more));
      }
    }
  }

  lemma HttpHead(line: string)
    requires line != "" && line[0] == 'S'
    ensures !StartsLikeHttp(line)
  {
    forall p | p in HttpPrefixes()
      ensures !(p <= line)
    {
      assert p[0] == 'P' || p[0] == 'G' || p[0] == 'D' || p[0] == 'H' || p[0] == 'O';
    }
  }

  lemma {:induction false} NoNuls(s: string)
    requires '\0' !in s
    ensures Clean(s) == s
  {
    if s != "" {
      NoNuls(s[1..]);
      assert s == [s[0]] + s[1..];
    }
  }

  lemma NothingToTrim(s: string)
    requires s != "" && !IsSpace(s[0]) && !IsSpace(s[|s| - 1])
    ensures Trim(s) == s
  {
  }

  /** The exception exists: the same bytes, cut differently. */
  lemma CutAfterSm()
    ensures FeedAll(["SMx\n"]).dispatched == ["SMx"]
    ensures FeedAll(["SM", "x\n"]).dispatched == []
  {
    WholeSm();
    SmTexts();
    RefusedDispatchesNothing(["SM", "x\n"]);
  }

  lemma WholeSm()
    ensures FeedAll(["SMx\n"]).dispatched == ["SMx"]
  {
    SmTexts();
    HttpHead("SMx");
    var chunks, lines := ["SMx\n"], ["SMx"];
    assert Join(chunks) == "SMx\n" by { assert chunks[..0] == [] && "" + "SMx\n" == "SMx\n"; }
    assert Lines(lines) == lines && UpToMismatch(lines) == lines by { assert lines[1..] == []; }
    FeedAllInStep(chunks);
  }

  lemma SmTexts()
    ensures Clean("SM") == "SM" && Clean("SMx\n") == "SMx\n" && Trim("SM") == "SM" && Trim("SMx") == "SMx"
    ensures FirstLine("SM") == "SM" && FirstLine("SMx\n") == "SMx" && Pieces("SMx\n") == ["SMx"]
  {
    NoNuls("SM");
    NoNuls("SMx\n");
    NothingToTrim("SM");
    NothingToTrim("SMx");
    FindNone("SM");
    FindNone("SMx");
    FindConcat("SMx", "\n");
    assert "SMx" + "\n" == "SMx\n" && Find("\n") == 0;
    assert "SMx\n"[4..] == "" && Pieces("") == [];
  }

  lemma {:induction false} FindNone(s: string)
    requires '\n' !in s
    ensures Find(s) == |s|
  {
    if s != "" {
      FindNone(s[1..]);
    }
  }

  class ClientListener {
    var lineBuffer: string
    var firstMessage: bool
    var connected: bool
    var dispatched: seq<string>

    ghost function Abs(): Conn
      reads this
    {
      Conn(lineBuffer, firstMessage, connected, dispatched)
    }

    constructor ()
      ensures Abs() == FeedAll([])
    {
      lineBuffer := "";
      firstMessage := true;
      connected := true;
      dispatched := [];
    }

    /** One successful read. */
    method Receive(bytes: string)
      modifies this
      ensures Abs() == Feed(old(Abs()), bytes)
    {
      if !connected {
        return;
      }
      var data := RemoveNuls(bytes);
      if firstMessage {
        var firstLine := Trim(FirstLine(data));
        if Mismatch(firstLine) {
          connected := false;
          return;
        }
        firstMessage := false;
      }
      lineBuffer := lineBuffer + data;
      DrainBuffer();
    }

    /** Cuts the buffer at its newlines for as long as there are any. */
    method DrainBuffer()
      requires connected
      modifies this`lineBuffer, this`connected, this`dispatched
      ensures Abs() == Drain(old(Abs()))
    {
      while Find(lineBuffer) < |lineBuffer|
        invariant connected
        invariant Drain(Abs()) == Drain(old(Abs()))
        decreases |lineBuffer|
      {
        var newlinePos := Find(lineBuffer);
        var line := Trim(lineBuffer[..newlinePos]);
        DrainOnce(Abs(), newlinePos, line, lineBuffer[newlinePos + 1..]);
        lineBuffer := lineBuffer[newlinePos + 1..];
        if line != "" {
          if Mismatch(line) {
            connected := false;
            break;
          }
          dispatched := dispatched + [line];
        }
      }
    }

    static method RemoveNuls(bytes: string) returns (data: string)
      ensures data == Clean(bytes)
    {
      data := "";
      var i := 0;
      while i < |bytes|
        invariant 0 <= i <= |bytes|
        invariant data + Clean(bytes[i..]) == Clean(bytes)
      {
        assert bytes[i..][1..] == bytes[i + 1..];
        if bytes[i] != '\0' {
          Assoc(data, [bytes[i]], Clean(bytes[i + 1..]));
          data := data + [bytes[i]];
        }
        i := i + 1;
      }
    }
  }
}
