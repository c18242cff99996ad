/**
 * The command-line tokenizer of src/shell.rs: a job's command string becomes
 * the argument vector handed to the operating system, with shell-like single
 * quotes, double quotes and backslash escapes, but no expansion of any kind.
 *
 * The full tokenizer is specified as a byte-at-a-time state machine
 * (Step / Run / Finish, together Lex). The imperative tokenizer
 * ParseCommandFull is proved to compute Lex. ParseCommand is `parse_command`
 * with its whitespace-splitting fast path corrected to split on ASCII
 * whitespace only; its fast paths are proved to agree with Lex. The code as
 * written is ParseCommandAsWritten, which agrees with Lex on text whose
 * whitespace is all ASCII.
 */
module Shell {
  import opened Wrappers
  import opened Text

  /** "dangling backslash at end of input" and "unclosed quote". */
  datatype TokenError = DanglingBackslash | UnclosedQuote

  const LETTER_N: byte := 110
  const LETTER_R: byte := 114
  const LETTER_T: byte := 116

  /** The tokenizer's state: the finished arguments, the token being read,
    * and the three flags of the source. */
  datatype Lexer = Lexer(args: seq<Bytes>, buf: Bytes, inSingle: bool, inDouble: bool, escaping: bool)

  const START := Lexer([], [], false, false, false)

  /** Outside quotes and not after a backslash. */
  predicate Plain(st: Lexer) {
    !st.inSingle && !st.inDouble && !st.escaping
  }

  /** The byte an escaped byte stands for: `\n`, `\t`, `\r`, else itself. */
  function Unescape(b: byte): byte {
    if b == LETTER_N then LF
    else if b == LETTER_T then TAB
    else if b == LETTER_R then CR
    else b
  }

  /** `push_token`: the buffered token becomes an argument unless it is empty. */
  function PushToken(args: seq<Bytes>, buf: Bytes): seq<Bytes> {
    args + Emit(buf)
  }

  /** One byte of input. */
  function Step(st: Lexer, b: byte): Lexer {
    if st.escaping then st.(buf := st.buf + [Unescape(b)], escaping := false)
    else if st.inSingle then
      if b == SQUOTE then st.(inSingle := false) else st.(buf := st.buf + [b])
    else if st.inDouble then
      if b == DQUOTE then st.(inDouble := false)
      else if b == BACKSLASH then st.(escaping := true)
      else st.(buf := st.buf + [b])
    else if b == BACKSLASH then st.(escaping := true)
    else if b == SQUOTE then st.(inSingle := true)
    else if b == DQUOTE then st.(inDouble := true)
    else if IsAsciiWhitespace(b) then st.(args := PushToken(st.args, st.buf), buf := [])
    else st.(buf := st.buf + [b])
  }

  /** The state after reading `s` from `st`. */
  function Run(st: Lexer, s: Bytes): Lexer
    decreases |s|
  {
    if s == [] then st else Run(Step(st, s[0]), s[1..])
  }

  /** End of input: a pending backslash, then an open quote, is an error;
    * otherwise the last token is pushed. */
  function Finish(st: Lexer): Result<seq<Bytes>, TokenError> {
    if st.escaping then Err(DanglingBackslash)
    else if st.inSingle || st.inDouble then Err(UnclosedQuote)
    else Ok(PushToken(st.args, st.buf))
  }

  /** The argument vector of a command string. */
  function Lex(s: Bytes): Result<seq<Bytes>, TokenError> {
    Finish(Run(START, s))
  }

  /** `get_command_as_os_str` as a value: the arguments, or none on error. */
  function Tokens(s: Bytes): seq<Bytes> {
    Lex(s).GetOr([])
  }

  /** `is_single_token`: no quote, backslash or ASCII whitespace. */
  predicate IsSingleToken(s: Bytes) {
    forall i :: 0 <= i < |s| ==> s[i] != SQUOTE && s[i] != DQUOTE && s[i] != BACKSLASH && !IsAsciiWhitespace(s[i])
  }

  /** `has_no_quotes_or_backslashes`. */
  predicate HasNoQuotesOrBackslashes(s: Bytes) {
    forall i :: 0 <= i < |s| ==> s[i] != SQUOTE && s[i] != DQUOTE && s[i] != BACKSLASH
  }

  // ---------------------------------------------------------------------
  // The tokenizer as the source runs it

  /** `parse_command_full`. */
  method ParseCommandFull(input: Bytes) returns (r: Result<seq<Bytes>, TokenError>)
    ensures r == Lex(input)
  {
    var args: seq<Bytes> := [];
    var buf: Bytes := [];
    var index := 0;
    var inSingle, inDouble, escaping := false, false, false;
    while index < |input|
      invariant index <= |input|
      invariant Run(Lexer(args, buf, inSingle, inDouble, escaping), input[index..]) == Run(START, input)
      decreases |input| - index
    {
      var b := input[index];
      assert input[index..] == [b] + input[index + 1..];
      assert Run(START, input) == Run(Step(Lexer(args, buf, inSingle, inDouble, escaping), b), input[index + 1..]);
      if escaping {
        buf := buf + [Unescape(b)];
        escaping := false;
        index := index + 1;
        continue;
      }
      if inSingle {
        if b == SQUOTE {
          inSingle := false;
        } else {
          buf := buf + [b];
        }
        index := index + 1;
        continue;
      }
      if inDouble {
        if b == DQUOTE {
          inDouble := false;
        } else if b == BACKSLASH {
          escaping := true;
        } else {
          buf := buf + [b];
        }
        index := index + 1;
        continue;
      }
      if b == BACKSLASH {
        escaping := true;
      } else if b == SQUOTE {
        inSingle := true;
      } else if b == DQUOTE {
        inDouble := true;
      } else if IsAsciiWhitespace(b) {
        args := PushToken(args, buf);
        buf := [];
        index := SkipWhitespace(input, index + 1, args);
        continue;
      } else {
        buf := buf + [b];
      }
      index := index + 1;
    }
    assert input[index..] == [];
    if escaping {
      return Err(DanglingBackslash);
    }
    if inSingle || inDouble {
      return Err(UnclosedQuote);
    }
    return Ok(PushToken(args, buf));
  }

  /** The inner loop of the whitespace branch: the rest of a run of ASCII
    * whitespace is passed over without changing what the tokenizer yields. */
  method SkipWhitespace(input: Bytes, from: nat, ghost args: seq<Bytes>) returns (index: nat)
    requires from <= |input|
    ensures from <= index <= |input|
    ensures Run(Lexer(args, [], false, false, false), input[index..])
         == Run(Lexer(args, [], false, false, false), input[from..])
  {
    index := from;
    while index < |input| && IsAsciiWhitespace(input[index])
      invariant from <= index <= |input|
      invariant Run(Lexer(args, [], false, false, false), input[index..])
             == Run(Lexer(args, [], false, false, false), input[from..])
      decreases |input| - index
    {
      assert input[index..] == [input[index]] + input[index + 1..];
      assert PushToken(args, []) == args;
      index := index + 1;
    }
  }

  /** `parse_command`, with fast path B splitting on the tokenizer's own ASCII
    * whitespace (see Findings). Every path gives what the full tokenizer
    * gives. */
  method ParseCommand(input: Bytes) returns (r: Result<seq<Bytes>, TokenError>)
    ensures r == Lex(input)
  {
    if input == [] {
      assert PushToken([], []) == [];
      return Ok([]);
    }
    if IsSingleToken(input) {
      SingleTokenLexesToItself(input);
      return Ok([input]);
    }
    if HasNoQuotesOrBackslashes(input) {
      PlainTextSplitsOnAsciiWhitespace(input);
      return Ok(AsciiWords(input));
    }
    r := ParseCommandFull(input);
  }

  /** `get_command`: the arguments, or none when the command is malformed. */
  method GetCommand(input: Bytes) returns (r: seq<Bytes>)
    ensures Lex(input).Ok? ==> r == Lex(input).value
    ensures Lex(input).Err? ==> r == []
  {
    var parsed := ParseCommand(input);
    r := parsed.GetOr([]);
  }

  /** `get_command_as_os_str`: the same arguments as operating-system strings,
    * which for bytes of valid UTF-8 are the same bytes. */
  method GetCommandAsOsStr(input: Bytes) returns (r: seq<Bytes>)
    ensures Lex(input).Ok? ==> r == Lex(input).value
    ensures Lex(input).Err? ==> r == []
  {
    r := GetCommand(input);
  }

  /** `estimate_tokens`: the number of whitespace-to-text transitions, at
    * least 1. */
  method EstimateTokens(s: Bytes) returns (r: nat)
    ensures r == if |AsciiWords(s)| == 0 then 1 else |AsciiWords(s)|
    ensures r >= 1
  {
    var count := 0;
    var insideWhitespace := true;
    var index := 0;
    while index < |s|
      invariant index <= |s|
      invariant count + Starts(s[index..], insideWhitespace) == Starts(s, true)
      decreases |s| - index
    {
      var b := s[index];
      assert s[index..] == [b] + s[index + 1..];
      var isWhitespace := IsAsciiWhitespace(b);
      if insideWhitespace && !isWhitespace {
        count := count + 1;
      }
      insideWhitespace := isWhitespace;
      index := index + 1;
    }
    assert s[index..] == [];
    WordCountIsStarts(s, []);
    r := if count > 1 then count else 1;
  }

  /** The number of bytes of `s` that begin a word, `afterSpace` telling
    * whether the byte before `s` was whitespace (or `s` starts the input). */
  function Starts(s: Bytes, afterSpace: bool): nat
    decreases |s|
  {
    if s == [] then 0
    else (if afterSpace && !IsAsciiWhitespace(s[0]) then 1 else 0) + Starts(s[1..], IsAsciiWhitespace(s[0]))
  }

  // ---------------------------------------------------------------------
  // Properties

  /** Splitting on ASCII whitespace gives one word per word start. */
  lemma {:induction false} WordCountIsStarts(s: Bytes, cur: Bytes)
    ensures |WordsFrom(s, cur, false)| == Starts(s, cur == []) + (if cur == [] then 0 else 1)
    decreases |s|
  {
    if s != [] {
      if IsAsciiWhitespace(s[0]) {
        WordCountIsStarts(s[1..], []);
      } else {
        WordCountIsStarts(s[1..], cur + [s[0]]);
      }
    }
  }

  /** An empty command has no arguments, and so has one made only of
    * ASCII whitespace. */
  lemma EmptyCommandHasNoArguments(n: nat)
    ensures Lex([]) == Ok([])
    ensures Lex(seq(n, _ => SPACE)) == Ok([])
  {
    assert PushToken([], []) == [];
    var s := seq(n, _ => SPACE);
    PlainTextSplitsOnAsciiWhitespace(s);
    WordCountIsStarts(s, []);
    assert Starts(s, true) == 0 by { SpacesStartNothing(n, true); }
  }

  lemma {:induction false} SpacesStartNothing(n: nat, afterSpace: bool)
    ensures Starts(seq(n, _ => SPACE), afterSpace) == 0
    decreases n
  {
    if n > 0 {
      assert seq(n, _ => SPACE)[1..] == seq(n - 1, _ => SPACE);
      SpacesStartNothing(n - 1, true);
    }
  }

  /** Reading `a` then `b` is reading `a + b`. */
  lemma {:induction false} RunAppend(st: Lexer, a: Bytes, b: Bytes)
    ensures Run(st, a + b) == Run(Run(st, a), b)
    decreases |a|
  {
    if a == [] {
      assert a + b == b;
    } else {
      assert (a + b)[0] == a[0];
      assert (a + b)[1..] == a[1..] + b;
      RunAppend(Step(st, a[0]), a[1..], b);
    }
  }

  /** Arguments already finished never influence the rest of the run. */
  lemma {:induction false} RunShift(p: seq<Bytes>, st: Lexer, s: Bytes)
    ensures Run(st.(args := p + st.args), s) == Run(st, s).(args := p + Run(st, s).args)
    decreases |s|
  {
    if s != [] {
      var st' := Step(st, s[0]);
      assert Step(st.(args := p + st.args), s[0]) == st'.(args := p + st'.args);
      RunShift(p, st', s[1..]);
    }
  }

  /** No argument is ever empty: an empty token (`''`, `""`) is dropped. */
  lemma {:induction false} RunKeepsTokensNonEmpty(st: Lexer, s: Bytes)
    requires forall i :: 0 <= i < |st.args| ==> st.args[i] != []
    ensures forall i :: 0 <= i < |Run(st, s).args| ==> Run(st, s).args[i] != []
    decreases |s|
  {
    if s != [] {
      RunKeepsTokensNonEmpty(Step(st, s[0]), s[1..]);
    }
  }

  lemma NoEmptyTokens(s: Bytes)
    requires Lex(s).Ok?
    ensures forall i :: 0 <= i < |Lex(s).value| ==> Lex(s).value[i] != []
  {
    RunKeepsTokensNonEmpty(START, s);
  }

  /** Without quotes and backslashes the tokenizer splits on ASCII whitespace. */
  lemma {:induction false} PlainRunSplits(args: seq<Bytes>, buf: Bytes, s: Bytes)
    requires HasNoQuotesOrBackslashes(s)
    ensures Finish(Run(Lexer(args, buf, false, false, false), s)) == Ok(args + WordsFrom(s, buf, false))
    decreases |s|
  {
    if s != [] {
      assert HasNoQuotesOrBackslashes(s[1..]);
      if IsAsciiWhitespace(s[0]) {
        PlainRunSplits(args + Emit(buf), [], s[1..]);
        assert args + Emit(buf) + WordsFrom(s[1..], [], false) == args + (Emit(buf) + WordsFrom(s[1..], [], false));
      } else {
        PlainRunSplits(args, buf + [s[0]], s[1..]);
      }
    }
  }

  /** Fast path B agrees with the full tokenizer. */
  lemma PlainTextSplitsOnAsciiWhitespace(s: Bytes)
    requires HasNoQuotesOrBackslashes(s)
    ensures Lex(s) == Ok(AsciiWords(s))
  {
    PlainRunSplits([], [], s);
    assert [] + AsciiWords(s) == AsciiWords(s);
  }

  lemma {:induction false} WordsOfOneWord(s: Bytes, cur: Bytes)
    requires IsSingleToken(s) && cur + s != []
    ensures WordsFrom(s, cur, false) == [cur + s]
    decreases |s|
  {
    if s != [] {
      assert IsSingleToken(s[1..]);
      assert cur + s == (cur + [s[0]]) + s[1..];
      WordsOfOneWord(s[1..], cur + [s[0]]);
    } else {
      assert cur + s == cur;
    }
  }

  /** The single-token fast path agrees with the full tokenizer. */
  lemma SingleTokenLexesToItself(s: Bytes)
    requires s != [] && IsSingleToken(s)
    ensures Lex(s) == Ok([s])
  {
    PlainTextSplitsOnAsciiWhitespace(s);
    WordsOfOneWord(s, []);
    assert [] + s == s;
  }

  /** Inside single quotes every byte is literal up to the closing quote. */
  lemma {:induction false} SingleQuotedRun(st: Lexer, w: Bytes)
    requires st.inSingle && !st.escaping && SQUOTE !in w
    ensures Run(st, w + [SQUOTE]) == st.(buf := st.buf + w, inSingle := false)
    decreases |w|
  {
    if w == [] {
      assert [] + [SQUOTE] == [SQUOTE];
    } else {
      assert (w + [SQUOTE])[1..] == w[1..] + [SQUOTE];
      SingleQuotedRun(Step(st, w[0]), w[1..]);
      assert st.buf + [w[0]] + w[1..] == st.buf + w;
    }
  }

  /** An unterminated single quote stays open. */
  lemma {:induction false} SingleQuoteStaysOpen(st: Lexer, w: Bytes)
    requires st.inSingle && !st.escaping && SQUOTE !in w
    ensures Run(st, w).inSingle && !Run(st, w).escaping
    decreases |w|
  {
    if w != [] {
      SingleQuoteStaysOpen(Step(st, w[0]), w[1..]);
    }
  }

  /** Text without `"` or `\` keeps a double quote open and not escaping. */
  lemma {:induction false} DoubleQuoteStaysOpen(st: Lexer, w: Bytes)
    requires st.inDouble && !st.inSingle && !st.escaping && DQUOTE !in w && BACKSLASH !in w
    ensures Run(st, w).inDouble && !Run(st, w).inSingle && !Run(st, w).escaping
    decreases |w|
  {
    if w != [] {
      DoubleQuoteStaysOpen(Step(st, w[0]), w[1..]);
    }
  }

  /** Inside double quotes, bytes other than `"` and `\` are literal. */
  lemma {:induction false} DoubleQuotedRun(st: Lexer, w: Bytes)
    requires st.inDouble && !st.inSingle && !st.escaping && DQUOTE !in w && BACKSLASH !in w
    ensures Run(st, w + [DQUOTE]) == st.(buf := st.buf + w, inDouble := false)
    decreases |w|
  {
    if w == [] {
      assert [] + [DQUOTE] == [DQUOTE];
    } else {
      assert (w + [DQUOTE])[1..] == w[1..] + [DQUOTE];
      DoubleQuotedRun(Step(st, w[0]), w[1..]);
      assert st.buf + [w[0]] + w[1..] == st.buf + w;
    }
  }

  /** A single-quoted word is one argument holding exactly its bytes; `''`
    * gives no argument at all. */
  lemma SingleQuotedWord(w: Bytes)
    requires SQUOTE !in w
    ensures Lex([SQUOTE] + w + [SQUOTE]) == Ok(Emit(w))
  {
    var s := [SQUOTE] + w + [SQUOTE];
    assert s[0] == SQUOTE && s[1..] == w + [SQUOTE];
    SingleQuotedRun(Step(START, SQUOTE), w);
    assert Run(START, s) == Run(Step(START, SQUOTE), w + [SQUOTE]);
    assert [] + w == w;
    assert PushToken([], w) == Emit(w);
  }

  /** A double-quoted word without `"` or `\` is one argument holding exactly
    * its bytes, whitespace included. */
  lemma DoubleQuotedWord(w: Bytes)
    requires DQUOTE !in w && BACKSLASH !in w
    ensures Lex([DQUOTE] + w + [DQUOTE]) == Ok(Emit(w))
  {
    var s := [DQUOTE] + w + [DQUOTE];
    assert s[0] == DQUOTE && s[1..] == w + [DQUOTE];
    DoubleQuotedRun(Step(START, DQUOTE), w);
    assert Run(START, s) == Run(Step(START, DQUOTE), w + [DQUOTE]);
    assert [] + w == w;
    assert PushToken([], w) == Emit(w);
  }

  /** A backslash outside single quotes takes the next byte literally,
    * translating `n`, `t` and `r`; inside double quotes as well. */
  lemma EscapedByte(b: byte)
    ensures Lex([BACKSLASH, b]) == Ok([[Unescape(b)]])
    ensures Lex([DQUOTE, BACKSLASH, b, DQUOTE]) == Ok([[Unescape(b)]])
  {
    var esc := Lexer([], [], false, false, true);
    assert [BACKSLASH, b][1..] == [b];
    assert Run(START, [BACKSLASH, b]) == Run(esc, [b]);
    assert Run(esc, [b]) == Lexer([], [Unescape(b)], false, false, false);
    assert PushToken([], [Unescape(b)]) == [[Unescape(b)]];
    var q := Lexer([], [], false, true, false);
    assert [DQUOTE, BACKSLASH, b, DQUOTE][1..] == [BACKSLASH, b, DQUOTE];
    assert [BACKSLASH, b, DQUOTE][1..] == [b, DQUOTE];
    assert [b, DQUOTE][1..] == [DQUOTE];
    assert Run(START, [DQUOTE, BACKSLASH, b, DQUOTE]) == Run(q, [BACKSLASH, b, DQUOTE]);
    assert Run(q, [BACKSLASH, b, DQUOTE]) == Run(q.(escaping := true), [b, DQUOTE]);
    assert Run(q.(escaping := true), [b, DQUOTE]) == Run(q.(buf := [Unescape(b)]), [DQUOTE]);
  }

  /** A backslash as the last byte, outside single quotes and not itself
    * escaped, is "dangling backslash". */
  lemma DanglingBackslashError(s: Bytes)
    requires !Run(START, s).inSingle && !Run(START, s).escaping
    ensures Lex(s + [BACKSLASH]) == Err(DanglingBackslash)
  {
    RunAppend(START, s, [BACKSLASH]);
  }

  /** A single quote opened outside quotes and never closed is "unclosed quote". */
  lemma UnclosedQuoteError(s: Bytes, w: Bytes)
    requires Plain(Run(START, s)) && SQUOTE !in w
    ensures Lex(s + [SQUOTE] + w) == Err(UnclosedQuote)
  {
    RunAppend(START, s, [SQUOTE]);
    RunAppend(START, s + [SQUOTE], w);
    SingleQuoteStaysOpen(Step(Run(START, s), SQUOTE), w);
  }

  /** So is a double quote opened outside quotes and never closed. */
  lemma UnclosedDoubleQuoteError(s: Bytes, w: Bytes)
    requires Plain(Run(START, s)) && DQUOTE !in w && BACKSLASH !in w
    ensures Lex(s + [DQUOTE] + w) == Err(UnclosedQuote)
  {
    RunAppend(START, s, [DQUOTE]);
    RunAppend(START, s + [DQUOTE], w);
    DoubleQuoteStaysOpen(Step(Run(START, s), DQUOTE), w);
  }

  /** Two well-formed commands joined by a space tokenize to the two argument
    * lists one after the other. */
  lemma Concatenation(a: Bytes, b: Bytes)
    requires Lex(a).Ok? && Lex(b).Ok?
    ensures Lex(a + [SPACE] + b) == Ok(Lex(a).value + Lex(b).value)
  {
    RunAppend(START, a, [SPACE]);
    RunAppend(START, a + [SPACE], b);
    var x := Lex(a).value;
    var L := Run(START, a);
    assert Run(L, [SPACE]) == Step(L, SPACE);
    assert x + [] == x;
    assert Step(L, SPACE) == START.(args := x + []);
    RunShift(x, START, b);
    var R := Run(START, b);
    assert Run(START, a + [SPACE] + b) == R.(args := x + R.args);
    assert PushToken(x + R.args, R.buf) == x + PushToken(R.args, R.buf);
  }

  /** One argument in single quotes. */
  function Quote(t: Bytes): Bytes {
    [SQUOTE] + t + [SQUOTE]
  }

  /** Arguments quoted and separated by single spaces. */
  function QuoteAll(ts: seq<Bytes>): Bytes
    decreases |ts|
  {
    if ts == [] then []
    else if |ts| == 1 then Quote(ts[0])
    else Quote(ts[0]) + [SPACE] + QuoteAll(ts[1..])
  }

  /** Quoting is inverted by the tokenizer: arguments that are non-empty and
    * free of single quotes come back unchanged. */
  lemma {:induction false} QuoteAllRoundTrip(ts: seq<Bytes>)
    requires forall i :: 0 <= i < |ts| ==> ts[i] != [] && SQUOTE !in ts[i]
    ensures Lex(QuoteAll(ts)) == Ok(ts)
    decreases |ts|
  {
    if ts == [] {
      assert PushToken([], []) == [];
    } else {
      SingleQuotedWord(ts[0]);
      assert Emit(ts[0]) == [ts[0]];
      if |ts| > 1 {
        QuoteAllRoundTrip(ts[1..]);
        Concatenation(Quote(ts[0]), QuoteAll(ts[1..]));
        assert [ts[0]] + ts[1..] == ts;
      } else {
        assert [ts[0]] == ts;
      }
    }
  }

  // ---------------------------------------------------------------------
  // Findings: fast path B as written

  /** `parse_command` as written: fast path B uses `str::split_whitespace`,
    * which also splits on non-ASCII White_Space characters that the full
    * tokenizer and `is_single_token` treat as ordinary bytes. */
  function ParseCommandAsWritten(input: Bytes): Result<seq<Bytes>, TokenError> {
    if input == [] then Ok([])
    else if IsSingleToken(input) then Ok([input])
    else if HasNoQuotesOrBackslashes(input) then Ok(Words(input))
    else Lex(input)
  }

  const NBSP_TEXT: Bytes := [97, 0xC2, 0xA0, 98, 32, 99]

  /** `a<U+00A0>b c`: as written the no-break space splits `a` from `b` ... */
  lemma NoBreakSpaceSplitsOnFastPath()
    ensures ParseCommandAsWritten(NBSP_TEXT) == Ok([[97], [98], [99]])
  {
    var s := NBSP_TEXT;
    assert !IsSingleToken(s) by { assert IsAsciiWhitespace(s[4]); }
    assert HasNoQuotesOrBackslashes(s);
    assert ParseCommandAsWritten(s) == Ok(Words(s));
    UnicodeWordsOfNbspText();
  }

  lemma UnicodeWordsOfNbspText()
    ensures Words(NBSP_TEXT) == [[97], [98], [99]]
  {
    var s := NBSP_TEXT;
    WordsCharStep(s, [], true, s[1..], [97]);
    WordsSpaceStep(s[1..], [97], true, [98, 32, 99]);
    WordsCharStep([98, 32, 99], [], true, [32, 99], [98]);
    WordsSpaceStep([32, 99], [98], true, [99]);
    WordsCharStep([99], [], true, [], [99]);
    assert Emit([97]) + (Emit([98]) + Emit([99])) == [[97], [98], [99]];
  }

  /** One byte of a word. */
  lemma WordsCharStep(s: Bytes, cur: Bytes, unicode: bool, rest: Bytes, next: Bytes)
    requires s != [] && WsWidth(s, unicode) == 0 && rest == s[1..] && next == cur + [s[0]]
    ensures WordsFrom(s, cur, unicode) == WordsFrom(rest, next, unicode)
  {
  }

  /** A separator ends the word. */
  lemma WordsSpaceStep(s: Bytes, cur: Bytes, unicode: bool, rest: Bytes)
    requires s != [] && WsWidth(s, unicode) > 0 && rest == s[WsWidth(s, unicode)..]
    ensures WordsFrom(s, cur, unicode) == Emit(cur) + WordsFrom(rest, [], unicode)
  {
  }

  /** ... while the full tokenizer keeps `a<U+00A0>b` as one argument ... */
  lemma FullTokenizerKeepsNoBreakSpace()
    ensures Lex(NBSP_TEXT) == Ok([[97, 0xC2, 0xA0, 98], [99]])
  {
    var s := NBSP_TEXT;
    assert HasNoQuotesOrBackslashes(s);
    PlainTextSplitsOnAsciiWhitespace(s);
    AsciiWordsOfNbspText();
  }

  lemma AsciiWordsOfNbspText()
    ensures AsciiWords(NBSP_TEXT) == [[97, 0xC2, 0xA0, 98], [99]]
  {
    var s := NBSP_TEXT;
    var w: Bytes := [97, 0xC2, 0xA0, 98];
    WordsCharStep(s, [], false, s[1..], [97]);
    WordsCharStep(s[1..], [97], false, s[2..], [97, 0xC2]);
    WordsCharStep(s[2..], [97, 0xC2], false, s[3..], [97, 0xC2, 0xA0]);
    WordsCharStep(s[3..], [97, 0xC2, 0xA0], false, s[4..], w);
    WordsSpaceStep(s[4..], w, false, s[5..]);
    WordsCharStep(s[5..], [], false, [], [99]);
    assert Emit(w) + Emit([99]) == [w, [99]];
  }

  /** ... and so does the code as written when no ASCII space follows. */
  lemma SingleTokenKeepsNoBreakSpace()
    ensures ParseCommandAsWritten([97, 0xC2, 0xA0, 98]) == Ok([[97, 0xC2, 0xA0, 98]])
  {
    var s: Bytes := [97, 0xC2, 0xA0, 98];
    assert IsSingleToken(s);
  }

  /** No White_Space character outside the ASCII set starts anywhere in `s`. */
  predicate NoWideWs(s: Bytes) {
    forall i :: 0 <= i < |s| ==> WsLen(s[i..]) <= 1
  }

  /** Without such characters the two kinds of splitting agree. */
  lemma {:induction false} WordsAgree(s: Bytes, cur: Bytes)
    requires NoWideWs(s)
    ensures WordsFrom(s, cur, true) == WordsFrom(s, cur, false)
    decreases |s|
  {
    if s != [] {
      assert WsLen(s[0..]) <= 1;
      assert s[0..] == s;
      assert NoWideWs(s[1..]) by {
        forall i | 0 <= i < |s[1..]| ensures WsLen(s[1..][i..]) <= 1 {
          assert s[1..][i..] == s[i + 1..];
        }
      }
      WordsAgree(s[1..], []);
      WordsAgree(s[1..], cur + [s[0]]);
    }
  }

  /** Fast path B as written agrees with the full tokenizer on text whose
    * whitespace is all ASCII. */
  lemma AsWrittenAgreesOnAsciiWhitespace(s: Bytes)
    requires NoWideWs(s)
    ensures ParseCommandAsWritten(s) == Lex(s)
  {
    if s == [] {
      EmptyCommandHasNoArguments(0);
    } else if IsSingleToken(s) {
      SingleTokenLexesToItself(s);
    } else if HasNoQuotesOrBackslashes(s) {
      WordsAgree(s, []);
      PlainTextSplitsOnAsciiWhitespace(s);
    }
  }
}
