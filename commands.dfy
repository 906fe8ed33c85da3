/**
 * The operator command language of the interactive loop and the bytes a
 * command becomes on the command characteristic.
 */
module Commands {
  import opened Options
  import opened Text
  import opened Json
  import Utf8

  /** The semantic commands; the arguments are sent as given, with no range check. */
  datatype Command =
    | Play
    | Pause
    | Next
    | Previous
    | SeekTo(valueMs: int)
    | SetVolume(valuePercent: int)

  /** The value of the `"command"` key. */
  function CommandName(c: Command): string {
    match c
    case Play => "play"
    case Pause => "pause"
    case Next => "next"
    case Previous => "previous"
    case SeekTo(_) => "seek_to"
    case SetVolume(_) => "set_volume"
  }

  /** The dict literal the loop passes to `send_command`, keys in insertion order. */
  function Record(c: Command): (r: seq<Member>)
    ensures IsFlat(r)
    ensures r != [] && r[0] == ("command", JString(CommandName(c)))
    ensures |r| == if c.SeekTo? || c.SetVolume? then 2 else 1
  {
    match c
    case SeekTo(ms) => [("command", JString("seek_to")), ("value_ms", JInt(ms))]
    case SetVolume(p) => [("command", JString("set_volume")), ("value_percent", JInt(p))]
    case _ => [("command", JString(CommandName(c)))]
  }

  /** Reads a command record back: exactly the keys and value types `Record` writes, nothing extra. */
  function FromRecord(r: seq<Member>): Option<Command> {
    if |r| == 1 && r[0].0 == "command" && r[0].1.JString? then
      var name := r[0].1.s;
      if name == "play" then Some(Play)
      else if name == "pause" then Some(Pause)
      else if name == "next" then Some(Next)
      else if name == "previous" then Some(Previous)
      else None
    else if |r| == 2 && r[0] == ("command", JString("seek_to")) && r[1].0 == "value_ms" && r[1].1.JInt? then
      Some(SeekTo(r[1].1.i))
    else if |r| == 2 && r[0] == ("command", JString("set_volume")) && r[1].0 == "value_percent"
            && r[1].1.JInt? then
      Some(SetVolume(r[1].1.i))
    else None
  }

  /** `send_command`: `json.dumps(command).encode('utf-8')`. */
  function Payload(c: Command): seq<Utf8.byte> {
    Utf8.Encode(Dumps(JObject(Record(c))))
  }

  /** `json.dumps` can write the record: it raises `ValueError` for an integer past the digit limit. */
  predicate Encodable(c: Command) {
    && (c.SeekTo? ==> WithinDigitLimit(c.valueMs))
    && (c.SetVolume? ==> WithinDigitLimit(c.valuePercent))
  }

  /** What the interactive loop does with one input line. */
  datatype Outcome =
    | Quit
    | Send(command: Command)
    | ReadInfo
    | Unknown
    /** `int()` rejected the argument (or it was missing); the loop reports it and goes on. */
    | BadArgument

  /** `input(...).strip().lower()`. */
  function Normalize(line: string): string {
    Lower(Strip(line))
  }

  /** `int(cmd.split()[1])`; `None` when that raises. */
  function Argument(cmd: string): Option<int> {
    var words := Split(cmd);
    if |words| < 2 then None else ParsePythonInt(words[1])
  }

  /** What one input line does: its normalized form, dispatched. */
  function Interpret(line: string): Outcome {
    Dispatch(Normalize(line))
  }

  /** The if/elif chain of the interactive loop, on the normalized command. */
  function Dispatch(cmd: string): Outcome {
    if cmd == "quit" then Quit
    else if cmd == "play" then Send(Play)
    else if cmd == "pause" then Send(Pause)
    else if cmd == "next" then Send(Next)
    else if cmd == "prev" then Send(Previous)
    else if StartsWith(cmd, "seek ") then
      match Argument(cmd)
      case Some(ms) => Send(SeekTo(ms))
      case None => BadArgument
    else if StartsWith(cmd, "vol ") then
      match Argument(cmd)
      case Some(percent) => Send(SetVolume(percent))
      case None => BadArgument
    else if cmd == "info" then ReadInfo
    else Unknown
  }

  /** The fixed words of the command language and what each one does (a reference table). */
  function Keyword(word: string): Option<Outcome> {
    if word == "quit" then Some(Quit)
    else if word == "play" then Some(Send(Play))
    else if word == "pause" then Some(Send(Pause))
    else if word == "next" then Some(Send(Next))
    else if word == "prev" then Some(Send(Previous))
    else if word == "info" then Some(ReadInfo)
    else None
  }

  // ---------------------------------------------------------------------
  // Properties
  // ---------------------------------------------------------------------

  /** Every command survives the trip through its record. */
  lemma RecordRoundTrip(c: Command)
    ensures FromRecord(Record(c)) == Some(c)
  {
  }

  /** A record that reads back as a command is exactly that command's record: no missing and no extraneous keys. */
  lemma {:induction false} FromRecordOnlyRecords(r: seq<Member>, c: Command)
    requires FromRecord(r) == Some(c)
    ensures r == Record(c)
  {
    if |r| == 1 {
      assert r == [r[0]];
      assert r[0] == (r[0].0, r[0].1);
    } else {
      assert r == [r[0], r[1]];
      assert r[1] == (r[1].0, r[1].1);
    }
  }

  /**
   * The bytes written are UTF-8 text that decodes, and parses as a flat
   * JSON object, back to the command's record and so to the command.
   */
  lemma {:induction false} PayloadRoundTrip(c: Command)
    ensures Utf8.Decode(Payload(c)) == Some(Dumps(JObject(Record(c))))
    ensures ParseObject(Dumps(JObject(Record(c)))) == Some(JObject(Record(c)))
    ensures FromRecord(Record(c)) == Some(c)
  {
    Utf8.DecodeEncode(Dumps(JObject(Record(c))));
    DumpsParses(Record(c));
    RecordRoundTrip(c);
  }

  /** The payload is one byte per character of the JSON text, each byte that character's code. */
  lemma PayloadIsAscii(c: Command)
    ensures |Payload(c)| == |Dumps(JObject(Record(c)))|
    ensures forall i :: 0 <= i < |Payload(c)| ==> Payload(c)[i] as int == Dumps(JObject(Record(c)))[i] as int
  {
    DumpsIsAscii(JObject(Record(c)));
    Utf8.EncodeAscii(Dumps(JObject(Record(c))));
  }

  /** Each fixed word, once normalized, does what the table says. */
  lemma DispatchKeyword(w: string)
    requires Keyword(w).Some?
    ensures Dispatch(w) == Keyword(w).value
    ensures !StartsWith(w, "seek ") && !StartsWith(w, "vol ")
  {
    assert w[0] != 's' && w[0] != 'v';
    OtherFirstChar(w, "seek ");
    OtherFirstChar(w, "vol ");
  }

  /** Text cannot start with a prefix whose first character it does not share. */
  lemma OtherFirstChar(s: string, prefix: string)
    requires s != [] && prefix != [] && s[0] != prefix[0]
    ensures !StartsWith(s, prefix)
  {
    assert |prefix| <= |s| ==> s[..|prefix|][0] == s[0];
  }

  /** A keyword in any case, with any whitespace around it, does what the table says. */
  lemma {:induction false} KeywordAnyCaseAndPadding(pre: string, word: string, post: string)
    requires AllSpace(pre) && AllSpace(post)
    requires Keyword(Lower(word)).Some?
    ensures Interpret(pre + word + post) == Keyword(Lower(word)).value
  {
    var w := Lower(word);
    assert |word| == |w| && |w| >= 4;
    LowerKeepsSpace(word);
    assert !IsSpace(w[0]) && !IsSpace(w[|w| - 1]);
    StripPadded(pre, word, post);
    DispatchKeyword(w);
  }

  /** Only the keyword itself (up to case and padding) sends a keyword command. */
  lemma KeywordCommandsOnlyFromKeywords(line: string, c: Command)
    requires !c.SeekTo? && !c.SetVolume?
    ensures Interpret(line) == Send(c) <==> Keyword(Normalize(line)) == Some(Send(c))
  {
    DispatchFixedCommand(Normalize(line), c);
  }

  lemma {:induction false} DispatchFixedCommand(cmd: string, c: Command)
    requires !c.SeekTo? && !c.SetVolume?
    ensures Dispatch(cmd) == Send(c) <==> Keyword(cmd) == Some(Send(c))
  {
    if Keyword(cmd).Some? {
      DispatchKeyword(cmd);
    } else if StartsWith(cmd, "seek ") || StartsWith(cmd, "vol ") {
      assert Dispatch(cmd).Send? ==> Dispatch(cmd).command.SeekTo? || Dispatch(cmd).command.SetVolume?;
    }
  }

  /** No fixed word starts with `s` or `v`, so a `seek`/`vol` line never matches one. */
  lemma NotKeyword(cmd: string)
    requires cmd != [] && (cmd[0] == 's' || cmd[0] == 'v')
    ensures Keyword(cmd).None?
  {
  }

  /** Text made of characters `lower()` keeps. */
  predicate Lowered(s: string) {
    forall i :: 0 <= i < |s| ==> LowerChar(s[i]) == s[i]
  }

  lemma LowerLowered(s: string)
    requires Lowered(s)
    ensures Lower(s) == s
  {
  }

  /**
   * Normalizing a line that starts with a word already in lower case, with
   * no whitespace at its ends, keeps that word and lower-cases the rest.
   */
  lemma {:induction false} NormalizeHead(head: string, rest: string)
    requires head != [] && !IsSpace(head[0]) && !IsSpace(head[|head| - 1]) && Lowered(head)
    requires rest == [] || IsSpace(rest[0])
    ensures Normalize(head + rest) == head + Lower(StripRight(rest))
    ensures Lower(StripRight(rest)) == [] || IsSpace(Lower(StripRight(rest))[0])
  {
    StripLeftPadded([], head + rest);
    assert [] + (head + rest) == head + rest;
    StripRightPadded(head, rest);
    LowerConcat(head, StripRight(rest));
    LowerLowered(head);
    LowerKeepsSpace(StripRight(rest));
  }

  lemma IntTextWord(n: int)
    ensures Verb(IntText(n))
    ensures !IsSpace(IntText(n)[|IntText(n)| - 1])
  {
    var d := IntText(n);
    if n < 0 {
      assert d[1..] == NatText(-n);
      assert forall i :: 1 <= i < |d| ==> d[i] == NatText(-n)[i - 1];
    }
  }

  /** A command word: lower case, nonempty, without whitespace. */
  predicate Verb(verb: string) {
    verb != [] && NoSpace(verb) && Lowered(verb)
  }

  /** Normalizing `verb arg rest` leaves a command that starts with `verb ` and whose argument is `arg` read by `int()`. */
  lemma {:induction false} NormalizedWordLine(verb: string, arg: string, rest: string)
    requires Verb(verb) && Verb(arg)
    requires rest == [] || IsSpace(rest[0])
    ensures Normalize(verb + " " + arg + rest)[0] == verb[0]
    ensures StartsWith(Normalize(verb + " " + arg + rest), verb + " ")
    ensures Argument(Normalize(verb + " " + arg + rest)) == ParsePythonInt(arg)
  {
    ArgumentHead(verb, arg);
    NormalizeHead(verb + " " + arg, rest);
    var tail := Lower(StripRight(rest));
    CommandPrefix(verb, arg, tail);
    ArgumentOfWord(verb, arg, tail);
  }

  lemma ArgumentOfWord(verb: string, arg: string, tail: string)
    requires Verb(verb) && Verb(arg)
    requires tail == [] || IsSpace(tail[0])
    ensures Argument(verb + " " + arg + tail) == ParsePythonInt(arg)
  {
    SplitTwoWords(verb, arg, tail);
  }

  /** Normalizing `verb n rest` leaves a command that starts with `verb ` and whose argument is `n`. */
  lemma {:induction false} NormalizedArgumentLine(verb: string, n: int, rest: string)
    requires Verb(verb) && WithinDigitLimit(n)
    requires rest == [] || IsSpace(rest[0])
    ensures Normalize(verb + " " + IntText(n) + rest)[0] == verb[0]
    ensures StartsWith(Normalize(verb + " " + IntText(n) + rest), verb + " ")
    ensures Argument(Normalize(verb + " " + IntText(n) + rest)) == Some(n)
  {
    IntTextWord(n);
    NormalizedWordLine(verb, IntText(n), rest);
    IntTextParses(n);
  }

  /** `verb arg` is a lower-case head with no whitespace at either end. */
  lemma ArgumentHead(verb: string, arg: string)
    requires Verb(verb) && Verb(arg)
    ensures var head := verb + " " + arg;
            !IsSpace(head[0]) && !IsSpace(head[|head| - 1]) && Lowered(head)
  {
    var head := verb + " " + arg;
    assert head[|head| - 1] == arg[|arg| - 1];
    forall i | 0 <= i < |head| ensures LowerChar(head[i]) == head[i] {
      if i >= |verb| + 1 { assert head[i] == arg[i - |verb| - 1]; }
    }
  }

  lemma CommandPrefix(verb: string, arg: string, tail: string)
    requires verb != []
    ensures (verb + " " + arg + tail)[0] == verb[0]
    ensures StartsWith(verb + " " + arg + tail, verb + " ")
  {
    var cmd := verb + " " + arg + tail;
    assert cmd == (verb + " ") + (arg + tail);
    assert cmd[..|verb + " "|] == verb + " ";
  }

  /** A command starting with `seek ` seeks to its second word, read as an integer, or reports a bad argument. */
  lemma DispatchSeek(cmd: string)
    requires StartsWith(cmd, "seek ")
    ensures Dispatch(cmd) == if Argument(cmd).Some? then Send(SeekTo(Argument(cmd).value)) else BadArgument
  {
    assert cmd[0] == cmd[..5][0] == 's';
    NotKeyword(cmd);
  }

  /** A command starting with `vol ` sets the volume to its second word, read as an integer, or reports a bad argument. */
  lemma DispatchVolume(cmd: string)
    requires StartsWith(cmd, "vol ")
    ensures Dispatch(cmd) == if Argument(cmd).Some? then Send(SetVolume(Argument(cmd).value)) else BadArgument
  {
    assert cmd[0] == cmd[..4][0] == 'v';
    OtherFirstChar(cmd, "seek ");
    assert cmd != "quit" && cmd != "play" && cmd != "pause" && cmd != "next" && cmd != "prev";
    var arg := Argument(cmd);
    assert Dispatch(cmd) == match arg case Some(p) => Send(SetVolume(p)) case None => BadArgument;
  }

  /** A command is unknown exactly when it is no fixed word and starts with neither `seek ` nor `vol `. */
  lemma UnknownExactly(cmd: string)
    ensures Dispatch(cmd) == Unknown <==> Keyword(cmd).None? && !StartsWith(cmd, "seek ") && !StartsWith(cmd, "vol ")
  {
    if Keyword(cmd).Some? {
      DispatchKeyword(cmd);
    } else if StartsWith(cmd, "seek ") {
      DispatchSeek(cmd);
    } else if StartsWith(cmd, "vol ") {
      DispatchVolume(cmd);
    }
  }

  /** A bad argument is reported exactly for a `seek ` or `vol ` command whose second word is missing or not an integer. */
  lemma BadArgumentExactly(cmd: string)
    ensures Dispatch(cmd) == BadArgument <==> (StartsWith(cmd, "seek ") || StartsWith(cmd, "vol ")) && Argument(cmd).None?
  {
    if Keyword(cmd).Some? {
      DispatchKeyword(cmd);
    } else if StartsWith(cmd, "seek ") {
      DispatchSeek(cmd);
    } else if StartsWith(cmd, "vol ") {
      DispatchVolume(cmd);
    }
  }

  /** The argument `int()` reads is always one `str()` can write back. */
  lemma ArgumentWithinLimit(cmd: string)
    requires Argument(cmd).Some?
    ensures WithinDigitLimit(Argument(cmd).value)
  {
    ParsedWithinLimit(Split(cmd)[1]);
  }

  /** Every command the loop sends can be serialized, so the error branch of `send_command` is never taken from the loop. */
  lemma DispatchedEncodable(cmd: string, c: Command)
    requires Dispatch(cmd) == Send(c)
    ensures Encodable(c)
  {
    if Keyword(cmd).Some? {
      DispatchKeyword(cmd);
    } else if StartsWith(cmd, "seek ") {
      DispatchSeek(cmd);
      ArgumentWithinLimit(cmd);
    } else if StartsWith(cmd, "vol ") {
      DispatchVolume(cmd);
      ArgumentWithinLimit(cmd);
    } else {
      UnknownExactly(cmd);
    }
  }

  /** `seek n` sends `n` unchanged, whatever its sign or size up to the digit limit, and ignores any further words. */
  lemma SeekSendsAnyValue(n: int, rest: string)
    requires WithinDigitLimit(n)
    requires rest == [] || IsSpace(rest[0])
    ensures Interpret("seek " + IntText(n) + rest) == Send(SeekTo(n))
  {
    assert "seek " == "seek" + " ";
    assert Verb("seek");
    NormalizedArgumentLine("seek", n, rest);
    DispatchSeek(Normalize("seek " + IntText(n) + rest));
  }

  /** `vol n` sends `n` unchanged: there is no check against 0..100, only the digit limit of `int()`. */
  lemma VolumeSendsAnyValue(n: int, rest: string)
    requires WithinDigitLimit(n)
    requires rest == [] || IsSpace(rest[0])
    ensures Interpret("vol " + IntText(n) + rest) == Send(SetVolume(n))
  {
    assert "vol " == "vol" + " ";
    assert Verb("vol");
    NormalizedArgumentLine("vol", n, rest);
    DispatchVolume(Normalize("vol " + IntText(n) + rest));
  }

  /** Digits are a lower-case word. */
  lemma DigitsWord(d: string)
    requires d != [] && AllDigits(d)
    ensures Verb(d) && !IsSpace(d[|d| - 1])
  {
  }

  /** `seek` with more digits than `int()` accepts reports a bad argument and sends nothing. */
  lemma SeekTooManyDigits(d: string, rest: string)
    requires AllDigits(d) && |d| > MAX_STR_DIGITS
    requires rest == [] || IsSpace(rest[0])
    ensures Interpret("seek " + d + rest) == BadArgument
  {
    assert "seek " == "seek" + " ";
    assert Verb("seek");
    DigitsWord(d);
    TooManyDigits(d);
    NormalizedWordLine("seek", d, rest);
    DispatchSeek(Normalize("seek " + d + rest));
  }

  /** `vol` with more digits than `int()` accepts reports a bad argument and sends nothing. */
  lemma VolumeTooManyDigits(d: string, rest: string)
    requires AllDigits(d) && |d| > MAX_STR_DIGITS
    requires rest == [] || IsSpace(rest[0])
    ensures Interpret("vol " + d + rest) == BadArgument
  {
    assert "vol " == "vol" + " ";
    assert Verb("vol");
    DigitsWord(d);
    TooManyDigits(d);
    NormalizedWordLine("vol", d, rest);
    DispatchVolume(Normalize("vol " + d + rest));
  }

  /** A normalized line that starts with `seek ` or `vol ` always has a second word, so `split()[1]` never fails. */
  lemma {:induction false} ArgumentWordExists(line: string)
    requires StartsWith(Normalize(line), "seek ") || StartsWith(Normalize(line), "vol ")
    ensures |Split(Normalize(line))| >= 2
  {
    var cmd := Normalize(line);
    NormalizedEnd(line);
    var k := VerbEnd(cmd);
    SecondWord(cmd, k);
  }

  /** A normalized line does not end in whitespace. */
  lemma {:induction false} NormalizedEnd(line: string)
    requires Normalize(line) != []
    ensures !IsSpace(Normalize(line)[|Normalize(line)| - 1])
  {
    var s := Strip(line);
    var cmd := Lower(s);
    assert cmd == Normalize(line);
    assert cmd[|s| - 1] == LowerChar(s[|s| - 1]);
    LowerCharKeepsSpace(s[|s| - 1]);
  }

  /** Where the verb of a `seek ` or `vol ` line ends. */
  lemma {:induction false} VerbEnd(cmd: string) returns (k: nat)
    requires StartsWith(cmd, "seek ") || StartsWith(cmd, "vol ")
    ensures 0 < k < |cmd| && cmd[k] == ' ' && NoSpace(cmd[..k])
  {
    if StartsWith(cmd, "seek ") {
      assert cmd[..5] == "seek ";
      assert cmd[..4] == cmd[..5][..4] == "seek";
      k := 4;
    } else {
      assert cmd[..4] == "vol ";
      assert cmd[..3] == cmd[..4][..3] == "vol";
      k := 3;
    }
  }

  /** A stripped line with a space after its first word has at least two words. */
  lemma {:induction false} SecondWord(cmd: string, k: nat)
    requires 0 < k < |cmd| && IsSpace(cmd[k]) && NoSpace(cmd[..k]) && !IsSpace(cmd[|cmd| - 1])
    ensures |Split(cmd)| >= 2
  {
    var verb, rest := cmd[..k], cmd[k..];
    assert cmd == verb + rest;
    SplitNonEmpty(rest, |rest| - 1);
    WordBeforeWords(verb, rest);
  }

  lemma WordBeforeWords(verb: string, rest: string)
    requires verb != [] && NoSpace(verb) && rest != [] && IsSpace(rest[0]) && Split(rest) != []
    ensures |Split(verb + rest)| >= 2
  {
    SplitWord(verb, rest);
  }

  /** A volume above 100 is sent as typed: the loop does not check the range 0..100. */
  lemma VolumeAboveHundred()
    ensures Interpret("vol 150") == Send(SetVolume(150))
  {
    VolumeLine();
    VolumeSendsAnyValue(150, "");
  }

  lemma VolumeLine()
    ensures "vol " + IntText(150) + "" == "vol 150"
  {
    assert NatText(1) == "1";
    assert NatText(15) == "15";
    assert IntText(150) == "150";
  }

  /** A negative position is sent as typed: the loop does not reject it. */
  lemma NegativeSeek()
    ensures Interpret("seek -5000") == Send(SeekTo(-5000))
  {
    SeekLine();
    SeekSendsAnyValue(-5000, "");
  }

  lemma SeekLine()
    ensures "seek " + IntText(-5000) + "" == "seek -5000"
  {
    assert NatText(5) == "5";
    assert NatText(50) == "50";
    assert NatText(500) == "500";
    assert NatText(5000) == "5000";
    assert IntText(-5000) == "-5000";
  }
}
