/** The pump of `runStreaming`: a subprocess's output arrives in arbitrary pieces and is
    logged line by line. Bytes are modelled as characters. */
module LinePump {
  import opened Text

  predicate IsReturn(c: char) { c == '\r' }

  /** `strings.TrimRight(s, "\r")`. */
  function Chomp(s: string): string { TrimRight(s, IsReturn) }

  function ChompAll(parts: seq<string>): (r: seq<string>)
    ensures |r| == |parts| && forall i :: 0 <= i < |parts| ==> r[i] == Chomp(parts[i])
  {
    seq(|parts|, i requires 0 <= i < |parts| => Chomp(parts[i]))
  }

  /** What a whole stream should log: its lines without trailing returns, and the last
      piece only if it is not empty. */
  function LoggedLines(stream: string): seq<string> {
    var parts := Split(stream, '\n');
    var last := parts[|parts| - 1];
    ChompAll(parts[..|parts| - 1]) + if last == "" then [] else [Chomp(last)]
  }

  function Concat(pieces: seq<string>): string {
    if pieces == [] then "" else Concat(pieces[..|pieces| - 1]) + pieces[|pieces| - 1]
  }

  /** `indexNewline`. */
  method IndexNewline(b: string) returns (r: int)
    ensures -1 <= r < |b|
    ensures r >= 0 ==> b[r] == '\n' && Free(b[..r], '\n')
    ensures r < 0 ==> Free(b, '\n')
  {
    for i := 0 to |b|
      invariant Free(b[..i], '\n')
    {
      if b[i] == '\n' { return i; }
    }
    return -1;
  }

  /** More input only extends the last piece. */
  lemma {:induction false} SplitMore(a: string, b: string)
    ensures var p := Split(a, '\n');
            Split(a + b, '\n') == p[..|p| - 1] + Split(p[|p| - 1] + b, '\n')
  {
    hide Split, WithFirst;
    if a == [] {
      SplitFree([], '\n');
      assert a + b == b && [[]][0] + b == b;
    } else {
      SplitMore(a[1..], b);
      assert (a + b)[1..] == a[1..] + b && (a + b)[0] == a[0];
      SplitHead(a);
      SplitHead(a + b);
      MoreHead(a[0], Split(a[1..], '\n'), b);
    }
  }

  /** The pieces of a text from its first character and the pieces of the rest. */
  function WithFirst(c: char, q: seq<string>): (p: seq<string>)
    requires q != []
    ensures p != []
  {
    if c == '\n' then [[]] + q else [[c] + q[0]] + q[1..]
  }

  lemma SplitHead(s: string)
    requires s != []
    ensures Split(s, '\n') == WithFirst(s[0], Split(s[1..], '\n'))
  {
  }

  lemma MoreHead(c: char, q: seq<string>, b: string)
    requires q != []
    ensures var p := WithFirst(c, q);
            WithFirst(c, q[..|q| - 1] + Split(q[|q| - 1] + b, '\n')) == p[..|p| - 1] + Split(p[|p| - 1] + b, '\n')
  {
    hide Split;
    var last := q[|q| - 1] + b;
    if c == '\n' {
      assert ([[]] + q)[..|q|] == [[]] + q[..|q| - 1];
    } else if |q| == 1 {
      assert [c] + last == [c] + q[0] + b && ([c] + last)[1..] == last;
      SplitHead([c] + last);
      assert q[..0] + Split(last, '\n') == Split(last, '\n');
    } else {
      var p := [[c] + q[0]] + q[1..];
      assert p[..|p| - 1] == [[c] + q[0]] + q[1..|q| - 1];
      assert (q[..|q| - 1] + Split(last, '\n'))[1..] == q[1..|q| - 1] + Split(last, '\n');
    }
  }

  /** The lines taken out of the buffer and what is still in it make up the input. */
  ghost predicate Taken(done: seq<string>, buf: string, input: string) {
    done + Split(buf, '\n') == Split(input, '\n')
  }

  lemma TakeLine(done: seq<string>, buf: string, i: nat, input: string)
    requires Taken(done, buf, input) && i < |buf| && buf[i] == '\n' && Free(buf[..i], '\n')
    ensures Taken(done + [buf[..i]], buf[i + 1..], input)
  {
    assert buf == buf[..i] + ['\n'] + buf[i + 1..];
    SplitField(buf[..i], buf[i + 1..], '\n');
    assert done + ([buf[..i]] + Split(buf[i + 1..], '\n')) == done + [buf[..i]] + Split(buf[i + 1..], '\n');
  }

  lemma AddPiece(done: seq<string>, buf: string, input: string, piece: string)
    requires Taken(done, buf, input) && Free(buf, '\n')
    ensures Taken(done, buf + piece, input + piece)
  {
    SplitFree(buf, '\n');
    SplitMore(input, piece);
    var p := Split(input, '\n');
    assert p[..|p| - 1] == done && p[|p| - 1] == buf;
  }

  lemma ChompSnoc(done: seq<string>, line: string)
    ensures ChompAll(done + [line]) == ChompAll(done) + [Chomp(line)]
  {
  }

  /** The inner loop: log every complete line in the buffer. */
  method Drain(start: string, ghost input: string, ghost before: seq<string>)
    returns (lines: seq<string>, buf: string, ghost done: seq<string>)
    requires Taken(before, start, input)
    ensures Taken(done, buf, input) && Free(buf, '\n')
    ensures ChompAll(before) + lines == ChompAll(done)
  {
    lines, buf, done := [], start, before;
    while true
      invariant Taken(done, buf, input)
      invariant ChompAll(before) + lines == ChompAll(done)
      decreases |buf|
    {
      var i := IndexNewline(buf);
      if i < 0 { break; }
      TakeLine(done, buf, i, input);
      ChompSnoc(done, buf[..i]);
      lines := lines + [Chomp(buf[..i])];
      done := done + [buf[..i]];
      buf := buf[i + 1..];
    }
  }

  /** The pump, over the pieces the reads return before the stream ends: what it logs
      depends on the stream alone, not on how it was cut. */
  method Pump(pieces: seq<string>) returns (logged: seq<string>)
    ensures logged == LoggedLines(Concat(pieces))
  {
    logged := [];
    var buf := "";
    ghost var done: seq<string> := [];
    for k := 0 to |pieces|
      invariant Taken(done, buf, Concat(pieces[..k])) && Free(buf, '\n')
      invariant logged == ChompAll(done)
    {
      assert pieces[..k + 1][..k] == pieces[..k];
      if |pieces[k]| > 0 {
        AddPiece(done, buf, Concat(pieces[..k]), pieces[k]);
        var lines;
        lines, buf, done := Drain(buf + pieces[k], Concat(pieces[..k + 1]), done);
        logged := logged + lines;
      } else {
        assert Concat(pieces[..k]) + pieces[k] == Concat(pieces[..k]);
      }
    }
    assert pieces[..|pieces|] == pieces;
    SplitFree(buf, '\n');
    var parts := Split(Concat(pieces), '\n');
    assert parts == done + [buf] && parts[..|parts| - 1] == done;
    if |buf| > 0 {
      logged := logged + [Chomp(buf)];
    }
  }

  /** For a stream without returns, joining the logged lines gives the stream back, up to
      its final newline. */
  lemma LoggedRestore(stream: string)
    requires Free(stream, '\r')
    ensures Join(LoggedLines(stream), '\n') == if EndsLine(stream) then stream[..|stream| - 1] else stream
  {
    hide Split, Join, LoggedLines;
    var parts := Split(stream, '\n');
    var last := parts[|parts| - 1];
    LoggedPieces(stream);
    JoinSplit(stream, '\n');
    if EndsLine(stream) {
      LastLine(stream);
      var body := stream[..|stream| - 1];
      JoinSplit(body, '\n');
      assert last == [] && parts[..|parts| - 1] == Split(body, '\n');
      assert LoggedLines(stream) == Split(body, '\n');
    } else {
      LastPiece(stream);
      assert parts == parts[..|parts| - 1] + [last];
      if last == "" {
        JoinNone();
        assert parts == [""] && LoggedLines(stream) == [];
      } else {
        assert LoggedLines(stream) == parts;
      }
    }
  }

  lemma JoinNone()
    ensures Join([], '\n') == []
  {
  }

  /** Without returns the logged lines are the pieces, but for an empty last one. */
  lemma LoggedPieces(stream: string)
    requires Free(stream, '\r')
    ensures var parts := Split(stream, '\n');
      LoggedLines(stream) == parts[..|parts| - 1] + if parts[|parts| - 1] == "" then [] else [parts[|parts| - 1]]
  {
    hide Split;
    var parts := Split(stream, '\n');
    PiecesFree(stream, '\n', '\r');
    forall i | 0 <= i < |parts| ensures Chomp(parts[i]) == parts[i] {
      assert Free(parts[i], '\r');
    }
    assert ChompAll(parts[..|parts| - 1]) == parts[..|parts| - 1];
  }

  lemma {:induction false} PiecesFree(s: string, sep: char, c: char)
    requires Free(s, c)
    ensures AllFree(Split(s, sep), c)
  {
    if s != [] {
      PiecesFree(s[1..], sep, c);
    }
  }

  /** Only a final newline, or nothing at all, leaves an empty last piece. */
  lemma {:induction false} LastPiece(s: string)
    ensures var p := Split(s, '\n');
            p[|p| - 1] == "" ==> EndsLine(s) || (s == "" && p == [""])
  {
    if s != [] {
      LastPiece(s[1..]);
      var q := Split(s[1..], '\n');
      if |s| == 1 { assert s[1..] == ""; }
    }
  }

  // --- trailing returns ----------------------------------------------------------------------------------

  predicate AllReturns(s: string) { forall i :: 0 <= i < |s| ==> s[i] == '\r' }

  /** `line` is `piece` without the returns at its end. */
  ghost predicate Stripped(line: string, piece: string) {
    line <= piece && AllReturns(piece[|line|..]) && (line != "" ==> line[|line| - 1] != '\r')
  }

  lemma ChompStrips(s: string)
    ensures Stripped(Chomp(s), s)
  {
    var k := Trail(s, IsReturn);
    var tail := s[|s| - k..];
    forall i | 0 <= i < |tail| ensures tail[i] == '\r' {
      assert IsReturn(s[|s| - k + i]);
    }
  }

  /** At most one line is. */
  lemma StrippedUnique(line: string, other: string, piece: string)
    requires Stripped(line, piece) && Stripped(other, piece)
    ensures line == other
  {
    LongerEnds(line, other, piece);
    LongerEnds(other, line, piece);
  }

  /** Beyond the stripped line there are only returns. */
  lemma LongerEnds(line: string, other: string, piece: string)
    requires Stripped(line, piece) && other <= piece
    ensures |line| < |other| ==> other[|other| - 1] == '\r'
  {
    if |line| < |other| { assert piece[|line|..][|other| - 1 - |line|] == other[|other| - 1]; }
  }

  /** The logged lines are the stream's pieces, each without the returns at its end; only an
      empty last piece is not logged. */
  lemma LoggedStrips(stream: string)
    ensures var parts, lines := Split(stream, '\n'), LoggedLines(stream);
      && |lines| == (if parts[|parts| - 1] == "" then |parts| - 1 else |parts|)
      && forall i :: 0 <= i < |lines| ==> Stripped(lines[i], parts[i])
  {
    hide Split, Chomp, Stripped;
    var parts := Split(stream, '\n');
    forall i | 0 <= i < |parts| ensures Stripped(Chomp(parts[i]), parts[i]) { ChompStrips(parts[i]); }
  }
}
