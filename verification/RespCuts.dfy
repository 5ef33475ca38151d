/** Reading does not depend on how much of the input has arrived: a cut-off input is read the same, or waited for. And
    what the certificate client makes of a reply. */
module RespCuts {
  import opened Wrappers
  import opened Resp
  import opened RespGrammar

  // ---------------------------------------------------------------- cut-off inputs

  /** `whole` is what `s` is read as, `cut` what its first `k` bytes are read as: the same, if that much was consumed,
      otherwise the input ends too early. */
  predicate CutsTo<T(==)>(s: Bytes, k: nat, whole: Parsed<T>, cut: Result<Parsed<T>>)
    requires k <= |s|
  {
    var used := |s| - |whole.rest|;
    && 0 <= used && whole.rest == s[used..]
    && cut == if k < used then Err(Eof) else Ok(Parsed(whole.value, s[used..k]))
  }

  lemma LineCut(s: Bytes, k: nat)
    requires k <= |s| && Line(s).Ok?
    ensures CutsTo(s, k, Line(s).value, Line(s[..k]))
  {
    var i := LineEnd(s);
    if i < k {
      FirstLf(s[..k], i);
      assert s[..k][..i] == s[..i] && s[..k][i + 1..] == s[i + 1..k];
    } else {
      assert LineEnd(s[..k]) == k;
    }
  }

  lemma BulkCut(s: Bytes, k: nat)
    requires k <= |s| && Bulk(s).Ok?
    ensures CutsTo(s, k, Bulk(s).value, Bulk(s[..k]))
  {
    hide Line, Atoi;
    LineCut(s, k);
    var line := Line(s).value;
    var n := Atoi(line.value).value;
    var used := |s| - |line.rest|;
    if n >= 0 && k >= used {
      PayloadCut(line.rest, k - used, n);
      assert s[used..k] == line.rest[..k - used];
    }
  }

  lemma PayloadCut(t: Bytes, k: nat, n: nat)
    requires k <= |t| && n + 2 <= |t|
    ensures n + 2 <= k ==> t[..k][n..n + 2] == t[n..n + 2] && t[..k][..n] == t[..n] && t[..k][n + 2..] == t[n + 2..k]
  {
  }

  lemma WordCut(s: Bytes, k: nat)
    requires k <= |s| && Word(s).Ok?
    ensures CutsTo(s, k, Word(s).value, Word(s[..k]))
  {
    hide Line, Bulk;
    if k > 0 {
      assert s[..k][1..] == s[1..][..k - 1] && s[..k][0] == s[0];
      if s[0] == DOLLAR { BulkCut(s[1..], k - 1); } else { LineCut(s[1..], k - 1); }
      ShiftCut(s, k, 1, Word(s).value, Word(s[..k]));
    } else {
      if s[0] == DOLLAR { BulkCut(s[1..], 0); } else { LineCut(s[1..], 0); }
      RestBehind(s, Word(s).value);
    }
  }

  lemma RestBehind<T>(s: Bytes, p: Parsed<T>)
    requires s != [] && |p.rest| < |s| && p.rest == s[1..][|s| - 1 - |p.rest|..]
    ensures p.rest == s[|s| - |p.rest|..]
  {
  }

  lemma ShiftCut<T>(s: Bytes, k: nat, d: nat, whole: Parsed<T>, cut: Result<Parsed<T>>)
    requires d <= k <= |s| && CutsTo(s[d..], k - d, whole, cut)
    ensures CutsTo(s, k, whole, cut)
  {
    var used := |s| - |whole.rest|;
    assert s[d..][used - d..] == s[used..];
    if used <= k { assert s[d..][used - d..k - d] == s[used..k]; }
  }

  lemma {:induction false} WordsCut(s: Bytes, count: nat, k: nat)
    requires k <= |s| && Words(s, count).Ok?
    ensures CutsTo(s, k, Words(s, count).value, Words(s[..k], count))
    decreases count
  {
    hide Word;
    if count > 0 {
      WordCut(s, k);
      var head := Word(s).value;
      var d := |s| - |head.rest|;
      if d <= k {
        assert s[..k][d..] == head.rest[..k - d] && s[d..k] == head.rest[..k - d];
        WordsCut(head.rest, count - 1, k - d);
        MoreCut(s, k, d, head.value, Words(head.rest, count - 1).value, Words(head.rest[..k - d], count - 1));
      } else {
        WordsCut(head.rest, count - 1, 0);
        var tail := Words(head.rest, count - 1).value;
        assert tail.rest == s[|s| - |tail.rest|..];
      }
    }
  }

  lemma MoreCut(s: Bytes, k: nat, d: nat, word: Bytes, tail: Parsed<seq<Bytes>>, cut: Result<Parsed<seq<Bytes>>>)
    requires d <= k <= |s| && CutsTo(s[d..], k - d, tail, cut)
    ensures CutsTo(s, k, Parsed([word] + tail.value, tail.rest), if cut.Ok? then Ok(Parsed([word] + cut.value.value, cut.value.rest)) else Err(cut.error))
  {
    ShiftCut(s, k, d, tail, cut);
  }

  /** However an accepted input is cut off, nothing is read wrongly: the reader either has its command, the same one,
      and leaves exactly the bytes behind it, or has too little. */
  lemma ArrayCut(s: Bytes, k: nat)
    requires k <= |s| && Array(s).Ok?
    ensures CutsTo(s, k, Array(s).value, Array(s[..k]))
  {
    hide Line, Array, Words, CutsTo;
    var line, n := ArrayHead(s);
    HeadIsCut(s, k, line);
    var d := |s| - |line.rest|;
    if d <= k {
      HeadRead(s[..k], Parsed(line.value, s[d..k]), n);
      WordsCut(line.rest, n, k - d);
      Ranges(s, d, k);
      ShiftCut(s, k, d, Array(s).value, Array(s[..k]));
    } else {
      WordsCut(line.rest, n, 0);
      ShiftedRest(s, k, d, Array(s).value, Words(line.rest[..0], n));
    }
  }

  /** What is left of the first line of a cut-off input. */
  lemma HeadIsCut(s: Bytes, k: nat, line: Parsed<Bytes>)
    requires s != [] && s[0] == STAR && Line(s[1..]) == Ok(line) && k <= |s|
    ensures 0 < |s| - |line.rest| && line.rest == s[|s| - |line.rest|..]
    ensures |s| - |line.rest| <= k ==>
      s[..k] != [] && s[..k][0] == STAR && Line(s[..k][1..]) == Ok(Parsed(line.value, s[|s| - |line.rest|..k]))
    ensures |s| - |line.rest| > k ==> Array(s[..k]) == Err(Eof)
  {
    hide Line, Array;
    if k > 0 {
      LineCut(s[1..], k - 1);
      ShiftCut(s, k, 1, line, Line(s[1..][..k - 1]));
      WithoutFirst(s, k);
      HeadEnds(s, k);
    } else {
      LineCut(s[1..], 0);
      ShiftedRest(s, k, 1, line, Line(s[1..][..0]));
      NothingRead();
    }
  }

  lemma WithoutFirst(s: Bytes, k: nat)
    requires 0 < k <= |s|
    ensures s[..k] != [] && s[..k][0] == s[0] && s[..k][1..] == s[1..][..k - 1]
  {
  }

  lemma HeadEnds(s: Bytes, k: nat)
    requires 0 < k <= |s| && s[0] == STAR
    ensures Line(s[..k][1..]) == Err(Eof) ==> Array(s[..k]) == Err(Eof)
  {
    hide Line, Atoi, Words;
  }

  lemma NothingRead()
    ensures Array([]) == Err(Eof)
  {
  }

  lemma ShiftedRest<T>(s: Bytes, k: nat, d: nat, whole: Parsed<T>, cut: Result<Parsed<T>>)
    requires k < d <= |s| && CutsTo(s[d..], 0, whole, cut)
    ensures CutsTo(s, k, whole, Err(Eof))
  {
    Suffixes(s, d, whole.rest);
  }

  lemma ArrayHead(s: Bytes) returns (line: Parsed<Bytes>, n: nat)
    requires Array(s).Ok?
    ensures s != [] && s[0] == STAR && Line(s[1..]) == Ok(line) && Atoi(line.value) == Some(n) && CanMake(n, STRING_SIZE)
    ensures Array(s) == Words(line.rest, n)
  {
    hide Line, Atoi, Words;
    line := Line(s[1..]).value;
    n := Atoi(line.value).value;
  }

  lemma HeadRead(s: Bytes, line: Parsed<Bytes>, n: nat)
    requires s != [] && s[0] == STAR && Line(s[1..]) == Ok(line) && Atoi(line.value) == Some(n) && CanMake(n, STRING_SIZE)
    ensures Array(s) == Words(line.rest, n)
  {
    hide Line, Atoi, Words;
  }

  lemma Ranges(s: Bytes, d: nat, k: nat)
    requires d <= k <= |s|
    ensures s[d..k] == s[d..][..k - d]
  {
  }

  lemma Suffixes(s: Bytes, d: nat, rest: Bytes)
    requires d <= |s| && |rest| <= |s| - d && rest == s[d..][|s| - d - |rest|..]
    ensures rest == s[|s| - |rest|..]
  {
  }

  /** So a command of which something is missing is waited for, never rejected. */
  lemma UnfinishedCommand(args: seq<Bytes>, k: nat)
    requires Command(args) && k < |Encoded(args)|
    ensures Array(Encoded(args)[..k]) == Err(Eof)
  {
    hide Command, Encoded, Array;
    var s := Encoded(args);
    CommandRoundTrip(args, []);
    assert s + [] == s;
    ArrayCut(s, k);
  }

  // ---------------------------------------------------------------- replies

  predicate AllBlank(s: Bytes)
  {
    forall i :: 0 <= i < |s| ==> IsBlank(s[i])
  }

  predicate NoBlankEnds(s: Bytes)
  {
    s == [] || (!IsBlank(s[0]) && !IsBlank(s[|s| - 1]))
  }

  /** Trimming takes blanks off both ends and nothing else. */
  lemma {:induction false} TrimSpaceIsInner(s: Bytes) returns (a: Bytes, b: Bytes)
    ensures s == a + TrimSpace(s) + b && AllBlank(a) && AllBlank(b) && NoBlankEnds(TrimSpace(s))
    decreases |s|
  {
    hide IsBlank, AllBlank, TrimSpace;
    a, b := [], [];
    NoBlanks();
    TrimSpaceMeans(s);
    if s != [] && IsBlank(s[0]) {
      a, b := TrimSpaceIsInner(s[1..]);
      BlanksJoin([s[0]], a);
      MoreInFront(s, a, TrimSpace(s), b);
      a := [s[0]] + a;
    } else if s != [] && IsBlank(s[|s| - 1]) {
      var front, last := s[..|s| - 1], s[|s| - 1];
      a, b := TrimSpaceIsInner(front);
      BlanksJoin(b, [last]);
      MoreBehind(s, a, TrimSpace(s), b);
      b := b + [last];
    }
  }

  lemma TrimSpaceMeans(s: Bytes)
    ensures s == [] ==> TrimSpace(s) == s
    ensures s != [] && IsBlank(s[0]) ==> TrimSpace(s) == TrimSpace(s[1..])
    ensures s != [] && !IsBlank(s[0]) && IsBlank(s[|s| - 1]) ==> TrimSpace(s) == TrimSpace(s[..|s| - 1])
    ensures s != [] && !IsBlank(s[0]) && !IsBlank(s[|s| - 1]) ==> TrimSpace(s) == s
  {
  }

  lemma MoreInFront(s: Bytes, a: Bytes, t: Bytes, b: Bytes)
    requires s != [] && s[1..] == a + t + b
    ensures s == [s[0]] + a + t + b
  {
    assert s == [s[0]] + s[1..];
  }

  lemma MoreBehind(s: Bytes, a: Bytes, t: Bytes, b: Bytes)
    requires s != [] && s[..|s| - 1] == a + t + b
    ensures s == a + t + (b + [s[|s| - 1]])
  {
    assert s == s[..|s| - 1] + [s[|s| - 1]];
  }

  lemma NoBlanks()
    ensures AllBlank([]) && forall c :: IsBlank(c) ==> AllBlank([c])
  {
  }

  lemma BlanksJoin(a: Bytes, b: Bytes)
    requires AllBlank(a) && AllBlank(b)
    ensures AllBlank(a + b)
  {
  }

  /** A line up to its LF, and what is behind it. */
  predicate IsRawLine(s: Bytes, line: Bytes, rest: Bytes)
  {
    s == line + [10] + rest && forall i :: 0 <= i < |line| ==> line[i] != 10
  }

  lemma RawLine(s: Bytes, line: Bytes, rest: Bytes)
    ensures IsRawLine(s, line, rest) <==> LineEnd(s) < |s| && line == s[..LineEnd(s)] && rest == s[LineEnd(s) + 1..]
    ensures IsRawLine(s, line, rest) ==> s[..LineEnd(s) + 1] == line + [10]
  {
    var i := LineEnd(s);
    if i < |s| {
      LineSplit(s, i);
      assert s[..i + 1] == s[..i] + [10];
    }
    if IsRawLine(s, line, rest) {
      LineParts(line, rest);
      FirstLf(s, |line|);
    }
  }

  /** A reply that carries a payload: `$`, its length, the payload, two bytes of whatever kind. */
  ghost predicate IsPayload(s: Bytes, payload: Bytes, rest: Bytes)
  {
    exists line: Bytes, end: Bytes :: PayloadOf(s, payload, rest, line, end)
  }

  ghost predicate PayloadOf(s: Bytes, payload: Bytes, rest: Bytes, line: Bytes, end: Bytes)
  {
    && s != [] && s[0] == 36 && IsRawLine(s[1..], line, payload + end + rest) && |end| == 2
    && Numeral(TrimSpace(line + [10]), |payload|) && |payload| + 2 <= 0x1_0000_0000_0000
  }

  /** What the certificate client accepts, exactly, and what it is told. */
  lemma PayloadIs(s: Bytes, payload: Bytes, rest: Bytes)
    ensures BulkReply(s) == Ok(Parsed(payload, rest)) <==> IsPayload(s, payload, rest)
  {
    hide Atoi, Numeral, TrimSpace, LineEnd, IsRawLine;
    if BulkReply(s) == Ok(Parsed(payload, rest)) {
      var body := s[1..];
      var i := LineEnd(body);
      var t := body[i + 1..];
      RawLine(body, body[..i], t);
      AtoiIs(TrimSpace(body[..i + 1]), |payload|);
      Thirds(t, |payload|);
      assert PayloadOf(s, payload, rest, body[..i], t[|payload|..|payload| + 2]);
    }
    if IsPayload(s, payload, rest) {
      var line: Bytes, end: Bytes :| PayloadOf(s, payload, rest, line, end);
      RawLine(s[1..], line, payload + end + rest);
      AtoiIs(TrimSpace(line + [10]), |payload|);
      Joined(payload, end, rest);
    }
  }

  lemma Thirds(t: Bytes, n: nat)
    requires n + 2 <= |t|
    ensures t == t[..n] + t[n..n + 2] + t[n + 2..]
  {
  }

  lemma Joined(payload: Bytes, end: Bytes, rest: Bytes)
    requires |end| == 2
    ensures var t, n := payload + end + rest, |payload|; n + 2 <= |t| && t[..n] == payload && t[n + 2..] == rest
  {
  }

  /** A remote error is the trimmed line behind `-`. */
  lemma RemoteIs(s: Bytes, line: Bytes, rest: Bytes)
    requires s != [] && s[0] == 45 && IsRawLine(s[1..], line, rest)
    ensures BulkReply(s) == Err(Remote(TrimSpace(line + [10])))
  {
    hide TrimSpace, LineEnd;
    RawLine(s[1..], line, rest);
  }
}
