/** The accepted inputs spelled out byte by byte: numerals, lines, words, arrays; and what a cut-off command reads as. */
module RespGrammar {
  import opened Wrappers
  import opened Text
  import opened Resp

  // ---------------------------------------------------------------- numerals

  function Zeros(n: nat): Bytes
  {
    seq(n, _ => 48)
  }

  /** A digit string spells a number exactly if it is that number's decimal form, with zeros in front or not. */
  lemma {:induction false} SpelledIsDecimal(s: Bytes) returns (zeros: nat)
    requires s != [] && AllDigits(s)
    ensures s == Zeros(zeros) + Itoa(Spelled(s))
  {
    hide AllDigits;
    var last, front := s[|s| - 1], s[..|s| - 1];
    LastDigit(s);
    if front == [] {
      zeros := 0;
      assert Spelled([]) == 0;
      ItoaGrows(0, last);
    } else {
      zeros := SpelledIsDecimal(front);
      ItoaGrows(Spelled(front), last);
      assert s == front + [last];
      if Spelled(front) == 0 {
        assert Itoa(0) == [48] by { ItoaGrows(0, 48); }
        assert Zeros(zeros) + [48] == Zeros(zeros + 1);
        zeros := zeros + 1;
      } else {
        assert Zeros(zeros) + Itoa(Spelled(front)) + [last] == Zeros(zeros) + (Itoa(Spelled(front)) + [last]);
      }
    }
  }

  lemma LastDigit(s: Bytes)
    requires s != [] && AllDigits(s)
    ensures IsDigit(s[|s| - 1]) && AllDigits(s[..|s| - 1])
    ensures Spelled(s) == Spelled(s[..|s| - 1]) * 10 + (s[|s| - 1] as int - 48)
  {
  }

  lemma ItoaGrows(n: nat, digit: byte)
    requires IsDigit(digit)
    ensures Itoa(n * 10 + (digit as int - 48)) == if n == 0 then [digit] else Itoa(n) + [digit]
  {
    var m := n * 10 + (digit as int - 48);
    assert n > 0 ==> m / 10 == n && m % 10 == digit as int - 48;
  }

  lemma {:induction false} ZerosSpell(zeros: nat, n: nat)
    ensures AllDigits(Zeros(zeros) + Itoa(n)) && Spelled(Zeros(zeros) + Itoa(n)) == n
    decreases zeros
  {
    hide Itoa;
    SpelledDigits(n);
    LeadingZeros(zeros, Itoa(n));
  }

  lemma {:induction false} LeadingZeros(zeros: nat, s: Bytes)
    requires AllDigits(s)
    ensures AllDigits(Zeros(zeros) + s) && Spelled(Zeros(zeros) + s) == Spelled(s)
    decreases zeros + |s|
  {
    var all := Zeros(zeros) + s;
    assert AllDigits(all);
    if s != [] {
      LeadingZeros(zeros, s[..|s| - 1]);
      assert all[..|all| - 1] == Zeros(zeros) + s[..|s| - 1];
    } else if zeros > 0 {
      LeadingZeros(zeros - 1, []);
      assert all[..|all| - 1] == Zeros(zeros - 1) + [];
    }
  }

  /** `s` is `n` in decimal, perhaps with a sign, perhaps with zeros in front. */
  ghost predicate Numeral(s: Bytes, n: int)
  {
    exists sign: Bytes, zeros: nat, m: nat :: IsNumeral(s, n, sign, zeros, m)
  }

  predicate IsNumeral(s: Bytes, n: int, sign: Bytes, zeros: nat, m: nat)
  {
    s == sign + (Zeros(zeros) + Itoa(m)) && ((sign == [45] && n + m == 0) || ((sign == [] || sign == [43]) && n == m))
  }

  /** Numbers are read exactly as they are written, if they fit 64 bits. */
  lemma AtoiIs(s: Bytes, n: int)
    ensures Atoi(s) == Some(n) <==> Numeral(s, n) && -0x8000_0000_0000_0000 <= n <= 0x7FFF_FFFF_FFFF_FFFF
  {
    hide Itoa, AllDigits;
    if Atoi(s) == Some(n) {
      NumeralOf(s, n);
    }
    if Numeral(s, n) {
      var sign: Bytes, zeros: nat, m: nat :| IsNumeral(s, n, sign, zeros, m);
      ZerosSpell(zeros, m);
      NumeralReads(s, n, sign, Zeros(zeros) + Itoa(m));
    }
  }

  lemma NumeralOf(s: Bytes, n: int)
    requires Atoi(s) == Some(n)
    ensures Numeral(s, n)
  {
    hide Itoa, AllDigits;
    var digits := if s[0] == PLUS || s[0] == MINUS then s[1..] else s;
    var sign := if s[0] == PLUS || s[0] == MINUS then s[..1] else [];
    var zeros := SpelledIsDecimal(digits);
    assert s == sign + digits;
    assert IsNumeral(s, n, sign, zeros, Spelled(digits));
  }

  lemma NumeralReads(s: Bytes, n: int, sign: Bytes, digits: Bytes)
    requires digits != [] && AllDigits(digits) && s == sign + digits
    requires (sign == [45] && n + Spelled(digits) == 0) || ((sign == [] || sign == [43]) && n == Spelled(digits))
    ensures Atoi(s) == if -MAX_INT - 1 <= n <= MAX_INT then Some(n) else None
  {
    if sign == [] {
      assert s == digits && IsDigit(digits[0]);
    } else {
      assert s[1..] == digits && s[0] == sign[0];
    }
  }

  // ---------------------------------------------------------------- lines

  /** `s` begins with a line: its text, LF or CR LF, and what follows. A CR before an LF is never part of the text. */
  predicate IsLine(s: Bytes, text: Bytes, rest: Bytes)
  {
    && (forall i :: 0 <= i < |text| ==> text[i] != 10)
    && (s == text + [13, 10] + rest || (s == text + [10] + rest && (text == [] || text[|text| - 1] != 13)))
  }

  lemma LineIs(s: Bytes, text: Bytes, rest: Bytes)
    ensures Line(s) == Ok(Parsed(text, rest)) <==> IsLine(s, text, rest)
  {
    hide IsLine;
    if Line(s) == Ok(Parsed(text, rest)) {
      LineSplit(s, LineEnd(s));
      TextEnds(s[..LineEnd(s)], rest);
    }
    if IsLine(s, text, rest) {
      LineJoined(s, text, rest);
    }
  }

  lemma LineSplit(s: Bytes, i: nat)
    requires i < |s| && s[i] == 10
    ensures s == s[..i] + [10] + s[i + 1..]
  {
  }

  lemma TextEnds(front: Bytes, rest: Bytes)
    requires forall i :: 0 <= i < |front| ==> front[i] != 10
    ensures IsLine(front + [10] + rest, WithoutCr(front), rest)
  {
    var text := WithoutCr(front);
    if text != front {
      assert front == text + [13];
      assert front + [10] + rest == text + [13, 10] + rest;
    }
  }

  lemma LineJoined(s: Bytes, text: Bytes, rest: Bytes)
    requires IsLine(s, text, rest)
    ensures Line(s) == Ok(Parsed(text, rest))
  {
    var front := if s == text + [13, 10] + rest then text + [13] else text;
    assert s == front + [10] + rest;
    FirstLf(s, |front|);
    LineParts(front, rest);
    assert front == text + [13] ==> front[..|text|] == text;
  }

  lemma LineParts(front: Bytes, rest: Bytes)
    ensures var s := front + [10] + rest; s[|front|] == 10 && s[..|front|] == front && s[|front| + 1..] == rest
    ensures forall i :: 0 <= i < |front| ==> (front + [10] + rest)[i] == front[i]
  {
  }

  lemma {:induction false} FirstLf(s: Bytes, k: nat)
    requires k < |s| && s[k] == 10 && forall j :: 0 <= j < k ==> s[j] != 10
    ensures LineEnd(s) == k
  {
  }

  lemma NoLine(s: Bytes)
    ensures Line(s) == Err(Eof) <==> forall i :: 0 <= i < |s| ==> s[i] != 10
    ensures Line(s).Err? ==> Line(s) == Err(Eof)
  {
    assert LineEnd(s) < |s| ==> s[LineEnd(s)] == 10;
  }

  // ---------------------------------------------------------------- words

  /** A bulk string: its length as a numeral on a line, the payload, CR LF; or any negative number for an empty one. */
  ghost predicate IsBulk(s: Bytes, payload: Bytes, rest: Bytes)
  {
    exists text: Bytes, n: int :: BulkOf(s, payload, rest, text, n)
  }

  ghost predicate BulkOf(s: Bytes, payload: Bytes, rest: Bytes, text: Bytes, n: int)
  {
    && Numeral(text, n) && -0x8000_0000_0000_0000 <= n && n + 2 <= 0x1_0000_0000_0000
    && if n < 0 then payload == [] && IsLine(s, text, rest)
       else |payload| == n && IsLine(s, text, payload + [13, 10] + rest)
  }

  lemma BulkIs(s: Bytes, payload: Bytes, rest: Bytes)
    ensures Bulk(s) == Ok(Parsed(payload, rest)) <==> IsBulk(s, payload, rest)
  {
    hide Line, Atoi, Numeral, IsLine;
    if Bulk(s) == Ok(Parsed(payload, rest)) {
      var line := Line(s).value;
      var n := Atoi(line.value).value;
      AtoiIs(line.value, n);
      LineIs(s, line.value, line.rest);
      if n >= 0 { Split(line.rest, n); }
      assert BulkOf(s, payload, rest, line.value, n);
    }
    if IsBulk(s, payload, rest) {
      var text: Bytes, n: int :| BulkOf(s, payload, rest, text, n);
      AtoiIs(text, n);
      var tail := if n < 0 then rest else payload + [13, 10] + rest;
      LineIs(s, text, tail);
      if n >= 0 { Unsplit(payload, rest); }
    }
  }

  lemma Split(s: Bytes, n: nat)
    requires n + 2 <= |s| && s[n..n + 2] == CRLF
    ensures s == s[..n] + [13, 10] + s[n + 2..]
  {
    assert s == s[..n] + s[n..n + 2] + s[n + 2..];
  }

  lemma Unsplit(payload: Bytes, rest: Bytes)
    ensures var s, n := payload + [13, 10] + rest, |payload|; n + 2 <= |s| && s[..n] == payload && s[n..n + 2] == CRLF && s[n + 2..] == rest
  {
  }

  /** A word: `$` and a bulk string, or `+` or `:` and a line. */
  ghost predicate IsWord(s: Bytes, word: Bytes, rest: Bytes)
  {
    s != [] && ((s[0] == 36 && IsBulk(s[1..], word, rest)) || ((s[0] == 43 || s[0] == 58) && IsLine(s[1..], word, rest)))
  }

  lemma WordIs(s: Bytes, word: Bytes, rest: Bytes)
    ensures Word(s) == Ok(Parsed(word, rest)) <==> IsWord(s, word, rest)
  {
    hide Bulk, Line, IsBulk, IsLine;
    if s != [] {
      BulkIs(s[1..], word, rest);
      LineIs(s[1..], word, rest);
    }
  }

  /** The words one behind the other: `rests[i]` is what is left before word `i`. */
  ghost predicate AreWords(words: seq<Bytes>, rests: seq<Bytes>)
  {
    |rests| == |words| + 1 && forall i :: 0 <= i < |words| ==> IsWord(rests[i], words[i], rests[i + 1])
  }

  lemma {:induction false} WordsOf(s: Bytes, count: nat) returns (rests: seq<Bytes>)
    requires Words(s, count).Ok?
    ensures var p := Words(s, count).value; |p.value| == count && AreWords(p.value, rests) && rests[0] == s && rests[count] == p.rest
    decreases count
  {
    hide Word, IsWord;
    if count == 0 {
      rests := [s];
    } else {
      var head := Word(s).value;
      WordIs(s, head.value, head.rest);
      var tail := WordsOf(head.rest, count - 1);
      rests := [s] + tail;
    }
  }

  lemma {:induction false} WordsRead(words: seq<Bytes>, rests: seq<Bytes>)
    requires AreWords(words, rests)
    ensures Words(rests[0], |words|) == Ok(Parsed(words, rests[|words|]))
    decreases |words|
  {
    hide Word, IsWord;
    if words != [] {
      WordIs(rests[0], words[0], rests[1]);
      WordsRead(words[1..], rests[1..]);
      assert [words[0]] + words[1..] == words;
    }
  }

  /** A command: `*` and the number of its words on a line, then so many words. */
  ghost predicate IsArray(s: Bytes, words: seq<Bytes>, rest: Bytes)
  {
    exists text: Bytes, rests: seq<Bytes> :: ArrayOf(s, words, rest, text, rests)
  }

  ghost predicate ArrayOf(s: Bytes, words: seq<Bytes>, rest: Bytes, text: Bytes, rests: seq<Bytes>)
  {
    && AreWords(words, rests) && rests[|words|] == rest && |words| <= 0x1000_0000_0000
    && Numeral(text, |words|) && s != [] && s[0] == 42 && IsLine(s[1..], text, rests[0])
  }

  /** What is accepted, exactly, and what it is read as. */
  lemma ArrayIs(s: Bytes, words: seq<Bytes>, rest: Bytes)
    ensures Array(s) == Ok(Parsed(words, rest)) <==> IsArray(s, words, rest)
  {
    hide Line, Atoi, Numeral, IsLine, Words, AreWords;
    if Array(s) == Ok(Parsed(words, rest)) {
      var line := Line(s[1..]).value;
      var n := Atoi(line.value).value;
      AtoiIs(line.value, n);
      LineIs(s[1..], line.value, line.rest);
      var rests := WordsOf(line.rest, n);
      RestsFit(words, rests);
      assert ArrayOf(s, words, rest, line.value, rests);
    }
    if IsArray(s, words, rest) {
      var text: Bytes, rests: seq<Bytes> :| ArrayOf(s, words, rest, text, rests);
      AtoiIs(text, |words|);
      RestsFit(words, rests);
      LineIs(s[1..], text, rests[0]);
      WordsRead(words, rests);
    }
  }

  lemma RestsFit(words: seq<Bytes>, rests: seq<Bytes>)
    requires AreWords(words, rests)
    ensures |rests| == |words| + 1
  {
  }
}
