/** The Redis serialization protocol as the server reads and writes it: arrays of bulk strings. */
module Resp {
  import opened Wrappers
  import opened Text

  newtype byte = x: int | 0 <= x < 256

  type Bytes = seq<byte>

  const CR: byte := 13
  const LF: byte := 10
  const CRLF: Bytes := [13, 10]
  const STAR: byte := 42
  const DOLLAR: byte := 36
  const PLUS: byte := 43
  const MINUS: byte := 45
  const COLON: byte := 58

  /** Go's `int`: no slice or count is larger. */
  const MAX_INT: int := 0x7FFF_FFFF_FFFF_FFFF

  /** The largest allocation the run time makes, in bytes; beyond it `make` panics. */
  const MAX_ALLOC: int := 0x1_0000_0000_0000

  /** What a string header takes. */
  const STRING_SIZE: nat := 16

  /** `Panic` is a panic of `make`, not an error that is returned. */
  datatype Error = Eof | Protocol | NilReply | Remote(message: Bytes) | Panic
  datatype Result<+T> = Ok(value: T) | Err(error: Error)
  {
    predicate IsFailure() { Err? }
    function PropagateFailure<U>(): Result<U> requires Err? { Err(error) }
    function Extract(): T requires Ok? { value }
  }

  /** A value and the input behind it. */
  datatype Parsed<+T> = Parsed(value: T, rest: Bytes)

  // ---------------------------------------------------------------- the grammar

  function Itoa(n: nat): (b: Bytes)
    ensures |b| > 0
  {
    Ascii(Digits(n))
  }

  function Ascii(digits: string): (b: Bytes)
    requires forall i :: 0 <= i < |digits| ==> '0' <= digits[i] <= '9'
    ensures |b| == |digits| && forall i :: 0 <= i < |b| ==> b[i] as int == digits[i] as int
  {
    seq(|digits|, i requires 0 <= i < |digits| => digits[i] as int as byte)
  }

  predicate IsDigit(b: byte)
  {
    48 <= b <= 57
  }

  /** The number a digit string spells. */
  function Spelled(s: Bytes): nat
    requires AllDigits(s)
  {
    if s == [] then 0
    else
      assert IsDigit(s[|s| - 1]);
      Spelled(s[..|s| - 1]) * 10 + (s[|s| - 1] as int - 48)
  }

  predicate AllDigits(s: Bytes)
  {
    forall i :: 0 <= i < |s| ==> IsDigit(s[i])
  }

  /** `strconv.Atoi`: an optional sign, at least one digit, nothing else, within 64 bits. */
  function Atoi(s: Bytes): (r: Option<int>)
    ensures r.Some? ==> -MAX_INT - 1 <= r.value <= MAX_INT
  {
    var digits := if s != [] && (s[0] == PLUS || s[0] == MINUS) then s[1..] else s;
    if digits == [] || !AllDigits(digits) then None
    else
      var m: int := Spelled(digits);
      var n := if s[0] == MINUS then -m else m;
      if -MAX_INT - 1 <= n <= MAX_INT then Some(n) else None
  }

  /** An `int` sum, wrapped around. */
  function Wrap(n: int): int
  {
    (n + MAX_INT + 1) % (2 * (MAX_INT + 1)) - MAX_INT - 1
  }

  /** Whether `make` can make `n` elements of this size. */
  predicate CanMake(n: int, size: nat)
  {
    0 <= n && n * size <= MAX_ALLOC
  }

  /** A sum that wraps around is negative, so that `make` panics just for what does not fit. */
  lemma MakesRoom(n: nat)
    requires n <= MAX_INT
    ensures CanMake(Wrap(n + 2), 1) <==> n + 2 <= MAX_ALLOC
    ensures n + 2 <= MAX_ALLOC ==> Wrap(n + 2) == n + 2
  {
  }

  /** Index of the first LF, or the length. */
  function LineEnd(s: Bytes): (i: nat)
    ensures i <= |s| && (i < |s| ==> s[i] == LF) && (forall j :: 0 <= j < i ==> s[j] != LF)
  {
    if s == [] || s[0] == LF then 0 else 1 + LineEnd(s[1..])
  }

  function WithoutCr(line: Bytes): Bytes
  {
    if line != [] && line[|line| - 1] == CR then line[..|line| - 1] else line
  }

  function Line(s: Bytes): Result<Parsed<Bytes>>
  {
    var i := LineEnd(s);
    if i == |s| then Err(Eof) else Ok(Parsed(WithoutCr(s[..i]), s[i + 1..]))
  }

  /** The bulk string behind `$`: a length, then that many bytes and CR LF. A negative length is the empty string. */
  function Bulk(s: Bytes): Result<Parsed<Bytes>>
  {
    var line :- Line(s);
    match Atoi(line.value)
    case None => Err(Protocol)
    case Some(n) =>
      if n < 0 then Ok(Parsed([], line.rest))
      else if n + 2 > MAX_ALLOC then Err(Panic)
      else if |line.rest| < n + 2 then Err(Eof)
      else if line.rest[n..n + 2] != CRLF then Err(Protocol)
      else Ok(Parsed(line.rest[..n], line.rest[n + 2..]))
  }

  function Word(s: Bytes): Result<Parsed<Bytes>>
  {
    if s == [] then Err(Eof)
    else if s[0] == DOLLAR then Bulk(s[1..])
    else if s[0] == PLUS || s[0] == COLON then Line(s[1..])
    else Err(Protocol)
  }

  function Words(s: Bytes, count: nat): Result<Parsed<seq<Bytes>>>
    decreases count
  {
    if count == 0 then Ok(Parsed([], s))
    else
      var head :- Word(s);
      var tail :- Words(head.rest, count - 1);
      Ok(Parsed([head.value] + tail.value, tail.rest))
  }

  function Array(s: Bytes): Result<Parsed<seq<Bytes>>>
  {
    if s == [] then Err(Eof)
    else if s[0] != STAR then Err(Protocol)
    else
      var line :- Line(s[1..]);
      match Atoi(line.value)
      case None => Err(Protocol)
      case Some(n) => if n < 0 then Err(Protocol) else if !CanMake(n, STRING_SIZE) then Err(Panic) else Words(line.rest, n)
  }

  // ---------------------------------------------------------------- the reader

  /** A buffered reader: the input and a cursor into it. */
  class Reader {
    const data: Bytes
    var pos: nat

    ghost predicate Valid()
      reads this
    {
      pos <= |data|
    }

    ghost function Rest(): Bytes
      reads this
      requires Valid()
    {
      data[pos..]
    }

    constructor (data: Bytes)
      ensures Valid() && Rest() == data
    {
      this.data := data;
      pos := 0;
    }

    method ReadByte() returns (r: Result<byte>)
      requires Valid()
      modifies this
      ensures Valid()
      ensures r == if old(Rest()) == [] then Err(Eof) else Ok(old(Rest())[0])
      ensures r.Ok? ==> Rest() == old(Rest())[1..]
    {
      if pos == |data| {
        return Err(Eof);
      }
      r := Ok(data[pos]);
      pos := pos + 1;
    }

    /** `ReadString('\\n')`: up to and including the next LF. */
    method ReadToLf() returns (r: Result<Bytes>)
      requires Valid()
      modifies this
      ensures Valid()
      ensures var s, i := old(Rest()), LineEnd(old(Rest()));
        if i == |s| then r == Err(Eof) else r == Ok(s[..i + 1]) && Rest() == s[i + 1..]
    {
      var start := pos;
      ghost var s := Rest();
      while pos < |data| && data[pos] != LF
        invariant start <= pos <= |data|
        invariant forall j :: 0 <= j < pos - start ==> s[j] != LF
      {
        pos := pos + 1;
      }
      if pos == |data| {
        return Err(Eof);
      }
      assert s[pos - start] == data[pos];
      pos := pos + 1;
      r := Ok(data[start..pos]);
      assert s[..LineEnd(s) + 1] == data[start..pos];
    }

    method ReadFull(n: nat) returns (r: Result<Bytes>)
      requires Valid()
      modifies this
      ensures Valid()
      ensures if |old(Rest())| < n then r == Err(Eof) else r == Ok(old(Rest())[..n]) && Rest() == old(Rest())[n..]
    {
      if |data| - pos < n {
        return Err(Eof);
      }
      assert data[pos..][..n] == data[pos..pos + n];
      r := Ok(data[pos..pos + n]);
      pos := pos + n;
    }

    ghost predicate Consumed<T>(was: Result<Parsed<T>>, r: Result<T>)
      reads this
      requires Valid()
    {
      match was
      case Ok(p) => r == Ok(p.value) && Rest() == p.rest
      case Err(e) => r == Err(e)
    }

    method ReadLine() returns (r: Result<Bytes>)
      requires Valid()
      modifies this
      ensures Valid() && Consumed(Line(old(Rest())), r)
    {
      ghost var s, i := Rest(), LineEnd(Rest());
      var line :- ReadToLf();
      line := line[..|line| - 1];
      assert i < |s| && line == s[..i];
      if |line| > 0 && line[|line| - 1] == CR {
        line := line[..|line| - 1];
      }
      return Ok(line);
    }

    method ReadBulkString() returns (r: Result<Bytes>)
      requires Valid()
      modifies this
      ensures Valid() && Consumed(Bulk(old(Rest())), r)
    {
      hide Atoi, Line, Wrap;
      var line :- ReadLine();
      ghost var s := Rest();
      var length := Atoi(line);
      if length.None? {
        return Err(Protocol);
      }
      if length.value < 0 {
        return Ok([]);
      }
      var n := length.value;
      MakesRoom(n);
      if !CanMake(Wrap(n + 2), 1) {
        return Err(Panic);
      }
      var buf :- ReadFull(n + 2);
      assert s[n..n + 2] == [buf[n], buf[n + 1]];
      if buf[n] != CR || buf[n + 1] != LF {
        return Err(Protocol);
      }
      assert s[..n] == buf[..n];
      return Ok(buf[..n]);
    }

    method ReadWord() returns (r: Result<Bytes>)
      requires Valid()
      modifies this
      ensures Valid() && Consumed(Word(old(Rest())), r)
    {
      var prefix :- ReadByte();
      if prefix == DOLLAR {
        r := ReadBulkString();
      } else if prefix == PLUS || prefix == COLON {
        r := ReadLine();
      } else {
        r := Err(Protocol);
      }
    }

    method ReadArray() returns (r: Result<seq<Bytes>>)
      requires Valid()
      modifies this
      ensures Valid() && Consumed(Array(old(Rest())), r)
    {
      var prefix :- ReadByte();
      if prefix != STAR {
        return Err(Protocol);
      }
      var line :- ReadLine();
      var count := Atoi(line);
      if count.None? || count.value < 0 {
        return Err(Protocol);
      }
      if !CanMake(count.value, STRING_SIZE) {
        return Err(Panic);
      }
      r := ReadWords(count.value);
    }

    method ReadWords(count: nat) returns (r: Result<seq<Bytes>>)
      requires Valid()
      modifies this
      ensures Valid() && Consumed(Words(old(Rest()), count), r)
    {
      hide Word;
      var args: seq<Bytes> := [];
      ghost var all := Words(Rest(), count);
      PrependNone(all);
      for i := 0 to count
        invariant Valid()
        invariant all == Prepend(args, Words(Rest(), count - i))
      {
        ghost var s := Rest();
        var value :- ReadWord();
        PrependMore(args, value, Words(Rest(), count - i - 1));
        args := args + [value];
      }
      assert args + [] == args;
      return Ok(args);
    }

    /** The certificate client's reader for one bulk reply; it does not look at the final CR LF. */
    method ReadBulkReply() returns (r: Result<Bytes>)
      requires Valid()
      modifies this
      ensures Valid() && Consumed(BulkReply(old(Rest())), r)
    {
      hide Atoi, TrimSpace;
      var prefix :- ReadByte();
      if prefix != DOLLAR && prefix != MINUS {
        return Err(Protocol);
      }
      var line :- ReadToLf();
      if prefix == MINUS {
        return Err(Remote(TrimSpace(line)));
      }
      var size := Atoi(TrimSpace(line));
      if size.None? {
        return Err(Protocol);
      }
      if size.value < 0 {
        return Err(NilReply);
      }
      MakesRoom(size.value);
      if !CanMake(Wrap(size.value + 2), 1) {
        return Err(Panic);
      }
      ghost var t := Rest();
      var payload :- ReadFull(size.value + 2);
      assert t[..size.value] == payload[..size.value];
      return Ok(payload[..size.value]);
    }
  }

  function Prepend(args: seq<Bytes>, r: Result<Parsed<seq<Bytes>>>): Result<Parsed<seq<Bytes>>>
  {
    match r
    case Ok(p) => Ok(Parsed(args + p.value, p.rest))
    case Err(e) => Err(e)
  }

  lemma PrependNone(r: Result<Parsed<seq<Bytes>>>)
    ensures Prepend([], r) == r
  {
    if r.Ok? {
      assert [] + r.value.value == r.value.value;
    }
  }

  lemma PrependMore(args: seq<Bytes>, value: Bytes, r: Result<Parsed<seq<Bytes>>>)
    ensures Prepend(args, Prepend([value], r)) == Prepend(args + [value], r)
  {
    if r.Ok? {
      assert args + ([value] + r.value.value) == args + [value] + r.value.value;
    }
  }

  predicate IsBlank(b: byte)
  {
    b == 32 || 9 <= b <= 13
  }

  /** `strings.TrimSpace`, ASCII white space only. */
  function TrimSpace(s: Bytes): Bytes
  {
    if s == [] then s
    else if IsBlank(s[0]) then TrimSpace(s[1..])
    else if IsBlank(s[|s| - 1]) then TrimSpace(s[..|s| - 1])
    else s
  }

  function BulkReply(s: Bytes): Result<Parsed<Bytes>>
  {
    if s == [] then Err(Eof)
    else if s[0] != DOLLAR && s[0] != MINUS then Err(Protocol)
    else
      var body := s[1..];
      var i := LineEnd(body);
      if i == |body| then Err(Eof)
      else if s[0] == MINUS then Err(Remote(TrimSpace(body[..i + 1])))
      else
        var rest := body[i + 1..];
        match Atoi(TrimSpace(body[..i + 1]))
        case None => Err(Protocol)
        case Some(n) =>
          if n < 0 then Err(NilReply)
          else if n + 2 > MAX_ALLOC then Err(Panic)
          else if |rest| < n + 2 then Err(Eof)
          else Ok(Parsed(rest[..n], rest[n + 2..]))
  }

  // ---------------------------------------------------------------- the writers

  function BulkString(payload: Bytes): Bytes
  {
    [DOLLAR] + Itoa(|payload|) + CRLF + payload + CRLF
  }

  /** `$-1`: the nil bulk string. */
  const NIL_BULK: Bytes := [36, 45, 49, 13, 10]

  function NullableBulk(payload: Option<Bytes>): Bytes
  {
    if payload.None? then NIL_BULK else BulkString(payload.value)
  }

  function Bulks(args: seq<Bytes>): Bytes
  {
    if args == [] then [] else BulkString(args[0]) + Bulks(args[1..])
  }

  function NullableBulks(items: seq<Option<Bytes>>): Bytes
  {
    if items == [] then [] else NullableBulk(items[0]) + NullableBulks(items[1..])
  }

  function Header(count: nat): Bytes
  {
    [STAR] + Itoa(count) + CRLF
  }

  /** A command: an array of bulk strings. */
  function Encoded(args: seq<Bytes>): Bytes
  {
    Header(|args|) + Bulks(args)
  }

  lemma Assoc(a: Bytes, b: Bytes, c: Bytes)
    ensures a + b + c == a + (b + c)
  {
  }

  method EncodeArray(args: seq<Bytes>) returns (buf: Bytes)
    ensures buf == Encoded(args)
  {
    hide BulkString, Itoa;
    buf := [STAR];
    buf := buf + Itoa(|args|);
    buf := buf + CRLF;
    for i := 0 to |args|
      invariant buf + Bulks(args[i..]) == Encoded(args)
    {
      assert args[i..][0] == args[i] && args[i..][1..] == args[i + 1..];
      Assoc(buf, BulkString(args[i]), Bulks(args[i + 1..]));
      buf := AppendBulk(buf, args[i]);
    }
    assert args[|args|..] == [] && buf + [] == buf;
  }

  method AppendBulk(before: Bytes, arg: Bytes) returns (buf: Bytes)
    ensures buf == before + BulkString(arg)
  {
    buf := before + [DOLLAR];
    buf := buf + Itoa(|arg|);
    buf := buf + CRLF;
    buf := buf + arg;
    buf := buf + CRLF;
  }

  /** A buffered writer that cannot fail: the bytes written so far. */
  class Writer {
    var written: Bytes

    constructor ()
      ensures written == []
    {
      written := [];
    }

    method WriteBulk(payload: Option<Bytes>)
      modifies this
      ensures written == old(written) + NullableBulk(payload)
    {
      if payload.None? {
        written := written + NIL_BULK;
        return;
      }
      written := written + ([DOLLAR] + Itoa(|payload.value|) + CRLF);
      written := written + payload.value;
      written := written + CRLF;
    }

    method WriteArrayOfBulks(items: seq<Option<Bytes>>)
      modifies this
      ensures written == old(written) + (Header(|items|) + NullableBulks(items))
    {
      hide NullableBulk, Header;
      ghost var all := old(written) + (Header(|items|) + NullableBulks(items));
      Assoc(written, Header(|items|), NullableBulks(items));
      written := written + Header(|items|);
      for i := 0 to |items|
        invariant written + NullableBulks(items[i..]) == all
      {
        assert items[i..][0] == items[i] && items[i..][1..] == items[i + 1..];
        Assoc(written, NullableBulk(items[i]), NullableBulks(items[i + 1..]));
        WriteBulk(items[i]);
      }
      assert items[|items|..] == [] && written + [] == written;
    }
  }

  // ---------------------------------------------------------------- round trips

  lemma {:induction false} SpelledDigits(n: nat)
    ensures AllDigits(Itoa(n)) && Spelled(Itoa(n)) == n
  {
    if n < 10 {
      assert Itoa(n)[..0] == [];
    } else {
      SpelledDigits(n / 10);
      assert Itoa(n)[..|Itoa(n)| - 1] == Itoa(n / 10);
    }
  }

  lemma AtoiItoa(n: nat)
    requires n <= MAX_INT
    ensures Atoi(Itoa(n)) == Some(n)
  {
    SpelledDigits(n);
    assert IsDigit(Itoa(n)[0]);
  }

  /** A line without LF or a final CR is read back, with what follows it. */
  lemma LineBack(line: Bytes, rest: Bytes)
    requires forall i :: 0 <= i < |line| ==> line[i] != LF
    requires line == [] || line[|line| - 1] != CR
    ensures Line(line + CRLF + rest) == Ok(Parsed(line, rest))
  {
    var s := line + CRLF + rest;
    assert s[|line|] == CR && s[|line| + 1] == LF;
    assert LineEnd(s) == |line| + 1;
    assert s[..|line| + 1] == line + [CR];
    assert s[|line| + 2..] == rest;
  }

  lemma NumberBack(n: nat, rest: Bytes)
    requires n <= MAX_INT
    ensures Line(Itoa(n) + CRLF + rest) == Ok(Parsed(Itoa(n), rest)) && Atoi(Itoa(n)) == Some(n)
  {
    SpelledDigits(n);
    forall i | 0 <= i < |Itoa(n)| ensures Itoa(n)[i] != LF && Itoa(n)[i] != CR {
      assert IsDigit(Itoa(n)[i]);
    }
    AtoiItoa(n);
    LineBack(Itoa(n), rest);
  }

  /** A bulk string of any bytes, CR LF among them, is read back exactly, if it can be held with its CR LF. */
  lemma BulkBack(payload: Bytes, rest: Bytes)
    requires |payload| <= MAX_INT
    ensures Word(BulkString(payload) + rest) == if |payload| + 2 <= MAX_ALLOC then Ok(Parsed(payload, rest)) else Err(Panic)
  {
    var tail := payload + CRLF + rest;
    assert BulkString(payload) + rest == [DOLLAR] + (Itoa(|payload|) + CRLF + tail);
    NumberBack(|payload|, tail);
    assert tail[..|payload|] == payload;
    assert tail[|payload|..|payload| + 2] == CRLF;
    assert tail[|payload| + 2..] == rest;
  }

  /** The nil bulk string is read as the empty string. */
  lemma NilBack(rest: Bytes)
    ensures Word(NIL_BULK + rest) == Ok(Parsed([], rest))
  {
    assert NIL_BULK + rest == [DOLLAR] + ([MINUS, 49] + CRLF + rest);
    LineBack([MINUS, 49], rest);
    assert [MINUS, 49][1..] == [49];
    assert IsDigit(49) && Spelled([49]) == 1;
  }

  /** Nothing in it is too large to be held in memory by its reader. */
  predicate Sized(items: seq<Option<Bytes>>)
  {
    |items| * STRING_SIZE <= MAX_ALLOC && forall i :: 0 <= i < |items| && items[i].Some? ==> |items[i].value| + 2 <= MAX_ALLOC
  }

  function OrEmpty(payload: Option<Bytes>): Bytes
  {
    if payload.None? then [] else payload.value
  }

  function Contents(items: seq<Option<Bytes>>): seq<Bytes>
  {
    seq(|items|, i requires 0 <= i < |items| => OrEmpty(items[i]))
  }

  lemma ContentsStep(items: seq<Option<Bytes>>)
    requires items != []
    ensures Contents(items) == [OrEmpty(items[0])] + Contents(items[1..])
  {
  }

  lemma NullableBack(payload: Option<Bytes>, rest: Bytes)
    requires payload.Some? ==> |payload.value| + 2 <= MAX_ALLOC
    ensures Word(NullableBulk(payload) + rest) == Ok(Parsed(OrEmpty(payload), rest))
  {
    if payload.None? { NilBack(rest); } else { BulkBack(payload.value, rest); }
  }

  lemma {:induction false} WordsBack(items: seq<Option<Bytes>>, rest: Bytes)
    requires Sized(items)
    ensures Words(NullableBulks(items) + rest, |items|) == Ok(Parsed(Contents(items), rest))
  {
    hide Word, NullableBulk;
    if items == [] {
      assert [] + rest == rest && Contents(items) == [];
    } else {
      var tail := NullableBulks(items[1..]) + rest;
      Assoc(NullableBulk(items[0]), NullableBulks(items[1..]), rest);
      NullableBack(items[0], tail);
      WordsBack(items[1..], rest);
      ContentsStep(items);
    }
  }

  /** The server's array of bulk strings is read back by its own reader, nil as the empty string. */
  lemma ReplyRoundTrip(items: seq<Option<Bytes>>, rest: Bytes)
    requires Sized(items)
    ensures Array(Header(|items|) + NullableBulks(items) + rest) == Ok(Parsed(Contents(items), rest))
  {
    hide NullableBulks, Contents, Words, Line, Atoi, Itoa;
    var body := NullableBulks(items) + rest;
    assert Header(|items|) + NullableBulks(items) + rest == [STAR] + (Itoa(|items|) + CRLF + body);
    NumberBack(|items|, body);
    WordsBack(items, rest);
  }

  function Present(args: seq<Bytes>): seq<Option<Bytes>>
  {
    seq(|args|, i requires 0 <= i < |args| => Some(args[i]))
  }

  lemma {:induction false} BulksPresent(args: seq<Bytes>)
    ensures NullableBulks(Present(args)) == Bulks(args)
  {
    hide BulkString;
    if args != [] {
      BulksPresent(args[1..]);
      assert Present(args)[1..] == Present(args[1..]);
    }
  }

  predicate Command(args: seq<Bytes>)
  {
    |args| * STRING_SIZE <= MAX_ALLOC && forall i :: 0 <= i < |args| ==> |args[i]| + 2 <= MAX_ALLOC
  }

  /** Reading an encoded command returns its arguments, whatever their bytes, and leaves the
      input behind it untouched. */
  lemma CommandRoundTrip(args: seq<Bytes>, rest: Bytes)
    requires Command(args)
    ensures Array(Encoded(args) + rest) == Ok(Parsed(args, rest))
  {
    BulksPresent(args);
    ReplyRoundTrip(Present(args), rest);
    assert Contents(Present(args)) == args;
  }

  function Pipeline(commands: seq<seq<Bytes>>): Bytes
    decreases |commands|
  {
    if commands == [] then [] else Encoded(commands[0]) + Pipeline(commands[1..])
  }

  /** Reading `n` commands one after another. */
  function Commands(s: Bytes, n: nat): Result<Parsed<seq<seq<Bytes>>>>
    decreases n
  {
    if n == 0 then Ok(Parsed([], s))
    else
      var head :- Array(s);
      var tail :- Commands(head.rest, n - 1);
      Ok(Parsed([head.value] + tail.value, tail.rest))
  }

  /** Pipelined commands come out in order, each with its own arguments. */
  lemma {:induction false} PipelineRoundTrip(commands: seq<seq<Bytes>>, rest: Bytes)
    requires forall i :: 0 <= i < |commands| ==> Command(commands[i])
    ensures Commands(Pipeline(commands) + rest, |commands|) == Ok(Parsed(commands, rest))
    decreases |commands|
  {
    hide Array, Encoded;
    if commands == [] {
      assert Pipeline(commands) + rest == rest;
    } else {
      var tail := Pipeline(commands[1..]) + rest;
      Assoc(Encoded(commands[0]), Pipeline(commands[1..]), rest);
      CommandRoundTrip(commands[0], tail);
      PipelineRoundTrip(commands[1..], rest);
      assert commands == [commands[0]] + commands[1..];
    }
  }

  /** The code is prefix-free: no encoded command is the beginning of another. */
  lemma CommandsAreUnambiguous(a: seq<Bytes>, b: seq<Bytes>, restA: Bytes, restB: Bytes)
    requires Command(a) && Command(b) && Encoded(a) + restA == Encoded(b) + restB
    ensures a == b && restA == restB
  {
    CommandRoundTrip(a, restA);
    CommandRoundTrip(b, restB);
  }

  lemma TrimsLineEnd(digits: Bytes)
    requires digits != [] && !IsBlank(digits[0]) && !IsBlank(digits[|digits| - 1])
    ensures TrimSpace(digits + [CR, LF]) == digits
  {
    var s := digits + [CR, LF];
    var t := digits + [CR];
    assert s[..|s| - 1] == t && t[..|t| - 1] == digits;
    assert TrimSpace(s) == TrimSpace(t);
    assert TrimSpace(t) == TrimSpace(digits);
  }

  lemma ReplyLine(line: Bytes, rest: Bytes)
    requires line != [] && !IsBlank(line[0]) && !IsBlank(line[|line| - 1]) && forall i :: 0 <= i < |line| ==> line[i] != LF
    ensures var body := line + CRLF + rest;
      && LineEnd(body) == |line| + 1 < |body|
      && TrimSpace(body[..LineEnd(body) + 1]) == line && body[LineEnd(body) + 1..] == rest
  {
    var body := line + CRLF + rest;
    assert body[|line|] == CR && body[|line| + 1] == LF;
    assert LineEnd(body) == |line| + 1;
    assert body[..|line| + 2] == line + [CR, LF];
    TrimsLineEnd(line);
  }

  /** The certificate client reads a bulk reply back exactly when there was a payload: nil is an error. */
  lemma BulkReplyRoundTrip(payload: Option<Bytes>, rest: Bytes)
    requires payload.Some? ==> |payload.value| <= MAX_INT
    ensures BulkReply(NullableBulk(payload) + rest)
         == if payload.None? then Err(NilReply)
            else if |payload.value| + 2 <= MAX_ALLOC then Ok(Parsed(payload.value, rest))
            else Err(Panic)
  {
    hide TrimSpace, LineEnd, Atoi, Itoa;
    if payload.Some? {
      var p := payload.value;
      var line := Itoa(|p|);
      var tail := p + CRLF + rest;
      assert BulkString(p) + rest == [DOLLAR] + (line + CRLF + tail);
      SpelledDigits(|p|);
      forall i | 0 <= i < |line| ensures line[i] != LF && !IsBlank(line[i]) {
        assert IsDigit(line[i]);
      }
      assert !IsBlank(line[0]) && !IsBlank(line[|line| - 1]);
      ReplyLine(line, tail);
      AtoiItoa(|p|);
      assert tail[..|p|] == p && tail[|p| + 2..] == rest;
    } else {
      assert NIL_BULK + rest == [DOLLAR] + ([MINUS, 49] + CRLF + rest);
      ReplyLine([MINUS, 49], rest);
      MinusOne();
    }
  }

  lemma MinusOne()
    ensures Atoi([MINUS, 49]) == Some(-1)
  {
    assert [MINUS, 49][1..] == [49];
    assert IsDigit(49) && Spelled([49]) == 1;
  }
}
