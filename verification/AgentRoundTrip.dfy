/**
 * What `json_escape` and the field readers of the agent do together: which strings survive being
 * printed and read back, and why the readers, which only search for text, are not misled by
 * output that quotes other keys.
 */
module AgentRoundTrip {
  import opened Types
  import opened AgentJson
  import opened Numerals

  // ---------- One string ----------

  // What the agent's own reader gets back for a character: a carriage return loses its escape
  // and becomes the letter r, other control characters became spaces when written.
  function LossyChar(ch: char): char {
    if ch == '\n' || ch == '\t' then ch
    else if ch == '\r' then 'r'
    else if ch < ' ' then ' '
    else ch
  }

  function Lossy(s: string): (r: string)
    ensures |r| == |s| && forall i :: 0 <= i < |s| ==> r[i] == LossyChar(s[i])
  {
    if s == [] then [] else [LossyChar(s[0])] + Lossy(s[1..])
  }

  // No control character other than newline and tab.
  predicate Plain(s: string) {
    forall i :: 0 <= i < |s| ==> s[i] == '\n' || s[i] == '\t' || s[i] >= ' '
  }

  lemma ReadOneEscaped(ch: char, rest: string)
    ensures ReadString(EscapeChar(ch) + rest, false) == Prepend([LossyChar(ch)], ReadString(rest, false))
  {
    var text := EscapeChar(ch) + rest;
    assert text[|EscapeChar(ch)|..] == rest;
    if |EscapeChar(ch)| == 2 {
      assert text[1..][1..] == rest;
    }
  }

  /** Reading back an escaped string, whatever follows its closing quote. */
  lemma {:induction false} ReadEscaped(s: string, rest: string)
    ensures ReadString(Escape(s) + "\"" + rest, false) == Some(Lossy(s))
  {
    if s == [] {
      assert Escape(s) + "\"" + rest == "\"" + rest;
    } else {
      assert Escape(s) + "\"" + rest == EscapeChar(s[0]) + (Escape(s[1..]) + "\"" + rest);
      ReadOneEscaped(s[0], Escape(s[1..]) + "\"" + rest);
      ReadEscaped(s[1..], rest);
    }
  }

  /** A string survives exactly when newline and tab are its only control characters. */
  lemma SurvivesExactly(s: string)
    ensures Lossy(s) == s <==> Plain(s)
  {
    if Lossy(s) == s {
      forall i | 0 <= i < |s| ensures s[i] == '\n' || s[i] == '\t' || s[i] >= ' ' {
        assert Lossy(s)[i] == LossyChar(s[i]);
      }
    }
  }

  // A conforming reader of section 7 of RFC 8259, without the `\u` form, which is never written:
  // None where the text is not the inside of a JSON string.
  function Decode(s: string): Option<string> {
    if s == [] then Some([])
    else if s[0] == '\\' then
      if |s| == 1 then None
      else if s[1] == '"' || s[1] == '\\' || s[1] == '/' then Prepend([s[1]], Decode(s[2..]))
      else if s[1] == 'b' then Prepend([8 as char], Decode(s[2..]))
      else if s[1] == 'f' then Prepend([12 as char], Decode(s[2..]))
      else if s[1] == 'n' then Prepend("\n", Decode(s[2..]))
      else if s[1] == 'r' then Prepend("\r", Decode(s[2..]))
      else if s[1] == 't' then Prepend("\t", Decode(s[2..]))
      else None
    else if s[0] == '"' || s[0] < ' ' then None
    else Prepend([s[0]], Decode(s[1..]))
  }

  function FlatChar(ch: char): char {
    if ch < ' ' && ch != '\n' && ch != '\r' && ch != '\t' then ' ' else ch
  }

  function Flat(s: string): string {
    if s == [] then [] else [FlatChar(s[0])] + Flat(s[1..])
  }

  /**
   * The escaped text is always well formed, and a conforming reader gets every character back
   * except the control characters that were written as spaces.
   */
  lemma {:induction false} EscapeConforms(s: string)
    ensures Decode(Escape(s)) == Some(Flat(s))
  {
    if s != [] {
      EscapeConforms(s[1..]);
      var one, rest := EscapeChar(s[0]), Escape(s[1..]);
      assert (one + rest)[|one|..] == rest;
      if |one| == 2 {
        assert (one + rest)[0] == one[0] && (one + rest)[1] == one[1];
      }
    }
  }

  // ---------- Numbers ----------

  lemma ReadDecimal(n: nat, rest: string)
    requires rest == [] || !IsDigit(rest[0])
    ensures ReadUint(Decimal(n) + rest) == if n > 18446744073709551615 then OutOfRange else Value(n)
  {
    DecimalDigits(n);
    DigitsUpTo(Decimal(n), rest);
    assert !IsSpace((Decimal(n) + rest)[0]);
  }

  lemma NoNumber(s: string)
    requires s != [] && !IsSpace(s[0]) && !IsDigit(s[0])
    ensures ReadUint(s) == Absent
  {
  }

  // A negative number prints a sign the reader does not accept.
  lemma ReadSigned(i: int, rest: string, s: string)
    requires s == Signed(i) + rest && (rest == [] || !IsDigit(rest[0]))
    ensures ReadUint(s) ==
            if i < 0 then Absent else if i > UINT64_MAX then OutOfRange else Value(i)
  {
    if i < 0 {
      NoNumber(s);
    } else {
      ReadDecimal(i, rest);
    }
  }

  /** A number is read after any white space, and only there: anything else in front hides it. */
  lemma UintAfterBlanks(blank: string, n: nat, rest: string, other: char)
    requires Blank(blank) && (rest == [] || !IsDigit(rest[0])) && !IsDigit(other) && !Blank([other])
    ensures ReadUint(blank + (Decimal(n) + rest)) == if n > 18446744073709551615 then OutOfRange else Value(n)
    ensures ReadUint(blank + ([other] + (Decimal(n) + rest))) == Absent
  {
    var digits := Decimal(n) + rest;
    BlanksSkipped(blank, digits);
    BlanksSkipped(blank, [other] + digits);
    assert ([other] + digits)[..1] == [other];
    NothingSkipped([other] + digits);
    ReadDecimal(n, rest);
  }

  /** A flag is true exactly when the text after any white space begins with these four letters. */
  lemma BoolAfterBlanks(blank: string, s: string)
    requires Blank(blank) && (s == [] || !Blank(s[..1]))
    ensures ReadBool(blank + s) <==> "true" <= s
  {
    BlanksSkipped(blank, s);
    NothingSkipped(s);
  }

  // ---------- Text written by others ----------

  // No escape among backspace, form feed and carriage return.
  predicate OnlyKnownEscapes(s: string) {
    if s == [] then true
    else if s[0] == '\\' then |s| >= 2 && s[1] !in "bfr" && OnlyKnownEscapes(s[2..])
    else OnlyKnownEscapes(s[1..])
  }

  lemma PrependSame(a: string, b: string, r: Option<string>, t: Option<string>)
    requires r.Some? && t.Some? && |a| == |b|
    ensures Prepend(a, r) == Prepend(b, t) <==> a == b && r == t
  {
    if a + r.value == b + t.value {
      assert a == (a + r.value)[..|a|] && b == (b + t.value)[..|b|];
      assert r.value == (a + r.value)[|a|..] && t.value == (b + t.value)[|b|..];
    }
  }

  /**
   * The inside of any JSON string without the `\u` form, whoever wrote it: the agent's reader takes it to
   * its end and agrees with a conforming one exactly when it has no escaped backspace, form feed or
   * carriage return.
   */
  lemma {:induction false} ReadsForeignText(s: string, rest: string)
    requires Decode(s).Some?
    ensures ReadString(s + "\"" + rest, false).Some?
    ensures ReadString(s + "\"" + rest, false) == Decode(s) <==> OnlyKnownEscapes(s)
    decreases |s|
  {
    var text := s + "\"" + rest;
    if s == [] {
      assert text == "\"" + rest;
    } else if s[0] == '\\' {
      ReadsForeignText(s[2..], rest);
      assert text[1..][1..] == s[2..] + "\"" + rest;
      assert text[1..][0] == s[1];
      ForeignEscape(s, s[2..] + "\"" + rest);
    } else {
      ReadsForeignText(s[1..], rest);
      assert text[1..] == s[1..] + "\"" + rest;
      PrependSame([s[0]], [s[0]], ReadString(text[1..], false), Decode(s[1..]));
    }
  }

  /** One escape, for the agent: n and t mean newline and tab, every other letter itself. */
  lemma EscapeRead(ch: char, rest: string)
    requires ReadString(rest, false).Some?
    ensures ReadString("\\" + [ch] + rest, false) ==
            Some((if ch == 'n' then "\n" else if ch == 't' then "\t" else [ch]) + ReadString(rest, false).value)
  {
    var text := "\\" + [ch] + rest;
    assert text[1..][0] == ch && text[1..][1..] == rest;
  }

  /** A key that is not there, and a text without its closing quote, read as nothing. */
  lemma MissingIsNothing(body: string, name: string)
    requires forall k: nat :: !OccursAt(body, "\"" + name + "\"", k)
    ensures StringField(body, name).None? && UintField(body, name).Absent? && !BoolField(body, name)
  {
  }

  lemma {:induction false} UnclosedIsNothing(s: string, escaped: bool)
    requires '"' !in s
    ensures ReadString(s, escaped).None?
  {
    if s != [] {
      UnclosedIsNothing(s[1..], false);
      UnclosedIsNothing(s[1..], true);
    }
  }

  // What the two readers make of one escape.
  lemma ForeignEscape(s: string, tail: string)
    requires |s| >= 2 && s[0] == '\\' && Decode(s).Some? && ReadString(tail, false).Some?
    ensures Decode(s[2..]).Some?
    ensures Prepend([Unescaped(s[1])], ReadString(tail, false)) == Decode(s) <==>
            s[1] !in "bfr" && ReadString(tail, false) == Decode(s[2..])
  {
    var meant := if s[1] == 'b' then [8 as char] else if s[1] == 'f' then [12 as char] else if s[1] == 'n' then "\n"
                 else if s[1] == 'r' then "\r" else if s[1] == 't' then "\t" else [s[1]];
    assert Decode(s) == Prepend(meant, Decode(s[2..]));
    PrependSame([Unescaped(s[1])], meant, ReadString(tail, false), Decode(s[2..]));
  }

  // ---------- Finding a key ----------

  // The characters a and b never stand next to each other.
  ghost predicate NoPair(s: string, a: char, b: char) {
    forall i, j :: 0 <= i < j < |s| && j == i + 1 ==> s[i] != a || s[j] != b
  }

  lemma NoPairJoin(s: string, t: string, a: char, b: char)
    requires NoPair(s, a, b) && NoPair(t, a, b)
    requires s == [] || t == [] || s[|s| - 1] != a || t[0] != b
    ensures NoPair(s + t, a, b)
  {
  }

  lemma NoPairSigned(i: int, a: char, b: char)
    requires (a != '-' && !IsDigit(a)) || !IsDigit(b)
    ensures Signed(i) != [] && IsDigit(Signed(i)[|Signed(i)| - 1]) && (Signed(i)[0] == '-' || IsDigit(Signed(i)[0]))
    ensures NoPair(Signed(i), a, b)
  {
    if i < 0 { DecimalDigits(-i); } else { DecimalDigits(i); }
  }

  // The next colon after `from` is at `at`.
  lemma ColonAt(body: string, from: nat, at: nat)
    requires from <= at < |body| && body[at] == ':'
    requires forall i :: from <= i < at ==> body[i] != ':'
    ensures Find(body, ":", from) == Some(at)
  {
    assert OccursAt(body, ":", at);
    forall k: nat | from <= k < at ensures !OccursAt(body, ":", k) {
      assert body[k..k + 1] == [body[k]];
    }
  }

  // A key is found where it was printed if two neighbouring characters of it never stand together
  // before that place.
  lemma FirstKey(body: string, pre: string, name: string, chunk: string, j: nat)
    requires pre + Quoted(name) + ":" + chunk <= body
    requires j + 1 < |Quoted(name)|
    requires NoPair(pre + Quoted(name)[..j + 1], Quoted(name)[j], Quoted(name)[j + 1])
    ensures AfterColon(body, name) == Some(|pre| + |name| + 3)
    ensures chunk <= body[|pre| + |name| + 3..]
  {
    var needle := Quoted(name);
    var text := pre + needle + ":" + chunk;
    var early := pre + needle[..j + 1];
    assert body[..|text|] == text;
    assert text[|pre|..|pre| + |needle|] == needle;
    assert OccursAt(body, needle, |pre|);
    forall k: nat | k < |pre| ensures !OccursAt(body, needle, k) {
      assert early[k + j] == body[k + j] && early[k + j + 1] == body[k + j + 1];
    }
    assert Find(body, needle, 0) == Some(|pre|);
    ColonAt(body, |pre| + |needle|, |pre| + |needle|);
    assert text[|pre| + |needle| + 1..] == chunk;
  }

  lemma Nested(r: CommandResult)
    ensures ToTimedOut(r) <= ToDuration(r) <= ToStdout(r) <= ToStderr(r) <= ResultJson(r)
  {
  }

  lemma NoPairMember(pre: string, name: string, value: string, a: char, b: char)
    requires NoPair(pre, a, b) && NoPair(Quoted(name), a, b) && NoPair(value, a, b)
    requires pre != [] && (pre[|pre| - 1] == '{' || pre[|pre| - 1] == ',')
    requires a !in "{,:" && b !in ",:"
    ensures NoPair(pre + Quoted(name) + ":" + (value + ","), a, b)
  {
    NoPairJoin(pre, Quoted(name), a, b);
    NoPairJoin(pre + Quoted(name), ":", a, b);
    NoPairJoin(value, ",", a, b);
    NoPairJoin(pre + Quoted(name) + ":", value + ",", a, b);
  }

  // The two quoted-letter pairs and the pair `r"` by which the keys are told apart.
  predicate Telling(a: char, b: char) {
    (a == '"' && b in "tds") || (a == 'r' && b == '"')
  }

  lemma PairsToTimedOut(r: CommandResult, a: char, b: char)
    requires Telling(a, b)
    ensures NoPair(ToTimedOut(r), a, b)
  {
    NoPairSigned(r.exitCode as int, a, b);
    assert NoPair("\"exit_code\"", a, b);
    NoPairMember("{", "exit_code", Signed(r.exitCode as int), a, b);
  }

  lemma PairsToDuration(r: CommandResult, a: char, b: char)
    requires Telling(a, b) && b != 't'
    ensures NoPair(ToDuration(r), a, b)
  {
    PairsToTimedOut(r, a, b);
    assert NoPair("\"timed_out\"", a, b);
    NoPairMember(ToTimedOut(r), "timed_out", if r.timedOut then "true" else "false", a, b);
  }

  lemma PairsToStdout(r: CommandResult, a: char, b: char)
    requires Telling(a, b) && b != 't' && b != 'd'
    ensures NoPair(ToStdout(r), a, b)
  {
    PairsToDuration(r, a, b);
    NoPairSigned(r.duration as int, a, b);
    assert NoPair("\"duration_ms\"", a, b);
    NoPairMember(ToDuration(r), "duration_ms", Signed(r.duration as int), a, b);
  }

  // ---------- Every field of a printed result ----------

  /** The text of a printed result. */
  lemma ResultText(r: CommandResult)
    ensures ResultJson(r) ==
            "{\"exit_code\":" + Signed(r.exitCode as int) + ",\"timed_out\":" + (if r.timedOut then "true" else "false")
            + ",\"duration_ms\":" + Signed(r.duration as int) + ",\"stdout\":\"" + Escape(r.out)
            + "\",\"stderr\":\"" + Escape(r.err) + "\"}"
  {
    var a, b, c := Signed(r.exitCode as int), if r.timedOut then "true" else "false", Signed(r.duration as int);
    var one := "{\"exit_code\":" + a;
    assert ToTimedOut(r) == one + ",";
    var two := NextMember(one, "timed_out", b, ",\"timed_out\":");
    var three := NextMember(two, "duration_ms", c, ",\"duration_ms\":");
    TextMembers(three, Escape(r.out), Escape(r.err));
  }

  lemma NextMember(front: string, name: string, value: string, key: string) returns (next: string)
    requires key == ",\"" + name + "\":"
    ensures next == front + key + value
    ensures (front + ",") + Quoted(name) + ":" + (value + ",") == next + ","
  {
    next := front + key + value;
    assert "," + Quoted(name) + ":" == key;
    assert (front + ",") + Quoted(name) + ":" == front + key;
  }

  lemma TextMembers(front: string, out: string, err: string)
    ensures (front + ",") + Quoted("stdout") + ":" + (Quoted(out) + ",") + Quoted("stderr") + ":" + (Quoted(err) + "}")
         == front + ",\"stdout\":\"" + out + "\",\"stderr\":\"" + err + "\"}"
  {
    var next := NextMember(front, "stdout", Quoted(out), ",\"stdout\":");
    var last := NextMember(next, "stderr", Quoted(err), ",\"stderr\":");
    assert ",\"stdout\":" + "\"" == ",\"stdout\":\"" && "\"" + ",\"stderr\":" + "\"" == "\",\"stderr\":\"";
    assert next == front + ",\"stdout\":\"" + out + "\"";
    assert (next + ",") + Quoted("stderr") + ":" + (Quoted(err) + "}") == next + ",\"stderr\":" + Quoted(err) + "}";
    assert next + ",\"stderr\":" + Quoted(err) == front + ",\"stdout\":\"" + out + "\",\"stderr\":\"" + err + "\"";
  }

  // The value of a key found where it was printed, up to its comma.
  lemma MemberAt(body: string, pre: string, name: string, value: string)
    requires pre + Quoted(name) + ":" + (value + ",") <= body
    requires name != [] && NoPair(pre + "\"", '"', name[0])
    ensures AfterColon(body, name) == Some(|pre| + |name| + 3)
    ensures |pre| + |name| + 3 + |value| < |body| && body[|pre| + |name| + 3 + |value|] == ','
    ensures body[|pre| + |name| + 3..] == value + body[|pre| + |name| + 3 + |value|..]
  {
    assert Quoted(name)[..1] == "\"";
    FirstKey(body, pre, name, value + ",", 0);
    var p := |pre| + |name| + 3;
    assert body[p..][..|value| + 1] == value + ",";
    assert body[p..][|value|] == ',';
    assert body[p..][..|value|] == value;
  }

  lemma SignedField(body: string, pre: string, name: string, i: int, value: string)
    requires value == Signed(i) && pre + Quoted(name) + ":" + (value + ",") <= body
    requires name != [] && NoPair(pre + "\"", '"', name[0])
    ensures UintField(body, name) == if i < 0 then Absent else if i > UINT64_MAX then OutOfRange else Value(i)
  {
    MemberAt(body, pre, name, value);
    var p := |pre| + |name| + 3;
    ReadSigned(i, body[p + |value|..], body[p..]);
  }

  lemma ExitCodeReadsBack(r: CommandResult)
    ensures UintField(ResultJson(r), "exit_code") == if r.exitCode < 0 then Absent else Value(r.exitCode as nat)
  {
    Nested(r);
    assert NoPair("{\"", '"', 'e');
    SignedField(ResultJson(r), "{", "exit_code", r.exitCode as int, Signed(r.exitCode as int));
  }

  lemma DurationReadsBack(r: CommandResult)
    ensures UintField(ResultJson(r), "duration_ms") == if r.duration < 0 then Absent else Value(r.duration as nat)
  {
    Nested(r);
    PairsToDuration(r, '"', 'd');
    NoPairJoin(ToDuration(r), "\"", '"', 'd');
    SignedField(ResultJson(r), ToDuration(r), "duration_ms", r.duration as int, Signed(r.duration as int));
  }

  lemma ReadTrue(s: string, value: string, rest: string)
    requires value == "true" || value == "false"
    requires s == value + rest
    ensures ReadBool(s) == (value == "true")
  {
    assert s[0] == value[0] && !IsSpace(s[0]);
    if value == "true" {
      assert s[..4] == value;
    }
  }

  lemma TimedOutReadsBack(r: CommandResult)
    ensures BoolField(ResultJson(r), "timed_out") == r.timedOut
  {
    var body, value := ResultJson(r), if r.timedOut then "true" else "false";
    Nested(r);
    PairsToTimedOut(r, '"', 't');
    NoPairJoin(ToTimedOut(r), "\"", '"', 't');
    MemberAt(body, ToTimedOut(r), "timed_out", value);
    var p := |ToTimedOut(r)| + |"timed_out"| + 3;
    ReadTrue(body[p..], value, body[p + |value|..]);
  }

  // The quoted value of a key found where it was printed.
  lemma QuotedValue(body: string, name: string, p: nat, s: string, value: string, rest: string)
    requires AfterColon(body, name) == Some(p)
    requires value == Quoted(Escape(s)) && body[p..] == value + rest
    ensures StringField(body, name) == Some(Lossy(s))
  {
    QuoteAt(body, p, Escape(s) + "\"", rest);
    ReadEscaped(s, rest);
  }

  lemma QuoteAt(body: string, p: nat, text: string, rest: string)
    requires p <= |body| && body[p..] == "\"" + text + rest
    ensures Find(body, "\"", p) == Some(p) && body[p + 1..] == text + rest
  {
    var found := body[p..];
    assert body[p] == found[0];
    assert body[p..p + 1] == [body[p]];
    assert OccursAt(body, "\"", p);
    assert body[p + 1..] == found[1..];
  }

  lemma TextField(body: string, pre: string, name: string, s: string, value: string)
    requires value == Quoted(Escape(s)) && pre + Quoted(name) + ":" + (value + ",") <= body
    requires name != [] && NoPair(pre + "\"", '"', name[0])
    ensures StringField(body, name) == Some(Lossy(s))
  {
    MemberAt(body, pre, name, value);
    var p := |pre| + |name| + 3;
    QuotedValue(body, name, p, s, value, body[p + |value|..]);
  }

  lemma StdoutReadsBack(r: CommandResult)
    ensures StringField(ResultJson(r), "stdout") == Some(Lossy(r.out))
  {
    Nested(r);
    PairsToStdout(r, '"', 's');
    NoPairJoin(ToStdout(r), "\"", '"', 's');
    TextField(ResultJson(r), ToStdout(r), "stdout", r.out, Quoted(Escape(r.out)));
  }

  // ---------- The last field, after text the agent does not control ----------

  // Inside an escaped string a quote is always preceded by a backslash.
  lemma {:induction false} EscapedQuotes(s: string)
    ensures Escape(s) != [] ==> Escape(s)[0] != '"'
    ensures NoPair(Escape(s), 'r', '"')
  {
    if s != [] {
      EscapedQuotes(s[1..]);
      NoPairJoin(EscapeChar(s[0]), Escape(s[1..]), 'r', '"');
    }
  }

  // Up to the key the only quote that may follow the letter r is the one closing stdout.
  lemma PairsToStderr(pre: string, s: string)
    requires NoPair(pre, 'r', '"') && pre != [] && pre[|pre| - 1] != 'r'
    ensures NoPair(pre + "\"stdout\":\"" + Escape(s), 'r', '"')
  {
    assert NoPair("\"stdout\":\"", 'r', '"');
    NoPairJoin(pre, "\"stdout\":\"", 'r', '"');
    EscapedQuotes(s);
    NoPairJoin(pre + "\"stdout\":\"", Escape(s), 'r', '"');
  }

  // The printed result around its last key.
  lemma Regroup(pre: string, out: string, tail: string)
    ensures pre + Quoted("stdout") + ":" + (Quoted(out) + ",") + Quoted("stderr") + ":" + tail
         == pre + "\"stdout\":\"" + out + "\",\"stderr\":" + tail
  {
    var stdoutKey, stderrKey := "\"stdout\":\"", "\",\"stderr\":";
    assert Quoted("stdout") + ":" + "\"" == stdoutKey;
    assert "\"," + Quoted("stderr") + ":" == stderrKey;
    assert pre + Quoted("stdout") + ":" + (Quoted(out) + ",") == pre + stdoutKey + out + "\",";
    assert pre + stdoutKey + out + "\"," + Quoted("stderr") + ":" == pre + stdoutKey + out + stderrKey;
  }

  /**
   * Whatever stdout holds, the first text `"stderr"` is the key itself or ends at the quote that
   * closes stdout, and both lead to the same colon.
   */
  lemma StderrColon(body: string, open: string, rest: string)
    requires body == open + "\",\"stderr\":" + rest
    requires NoPair(open, 'r', '"')
    ensures AfterColon(body, "stderr") == Some(|open| + 11) && body[|open| + 11..] == rest
  {
    var needle := Quoted("stderr");
    var t := |open|;
    assert needle == "\"stderr\"" && |needle| == 8;
    assert body[t..t + 11] == "\",\"stderr\":";
    assert OccursAt(body, needle, t + 2);
    var first := Find(body, needle, 0);
    assert first.Some? && first.value <= t + 2;
    var k := first.value;
    if k < t + 2 {
      StderrEarly(body, open, k);
    }
    ColonAt(body, k + 8, t + 10);
  }

  lemma StderrEarly(body: string, open: string, k: nat)
    requires open + "\",\"stderr\":" <= body
    requires NoPair(open, 'r', '"')
    requires OccursAt(body, Quoted("stderr"), k) && k < |open| + 2
    ensures k + 7 == |open|
  {
    var t := |open|;
    var text := open + "\",\"stderr\":";
    var found := body[k..k + 8];
    assert found == "\"stderr\"";
    assert body[k] == found[0] && body[k + 6] == found[6] && body[k + 7] == found[7];
    assert forall i :: 0 <= i < |text| ==> body[i] == text[i];
  }

  lemma LastField(body: string, open: string, s: string, value: string)
    requires value == Quoted(Escape(s)) && body == open + "\",\"stderr\":" + (value + "}")
    requires NoPair(open, 'r', '"')
    ensures StringField(body, "stderr") == Some(Lossy(s))
  {
    StderrColon(body, open, value + "}");
    QuotedValue(body, "stderr", |open| + 11, s, value, "}");
  }

  lemma StderrReadsBack(r: CommandResult)
    ensures StringField(ResultJson(r), "stderr") == Some(Lossy(r.err))
  {
    var pre, out, value := ToStdout(r), Escape(r.out), Quoted(Escape(r.err));
    PairsToStdout(r, 'r', '"');
    PairsToStderr(pre, r.out);
    Regroup(pre, out, value + "}");
    LastField(ResultJson(r), pre + "\"stdout\":\"" + out, r.err, value);
  }

  /**
   * Every field of every printed result, read back by the agent's own readers: numbers unless
   * negative, the flag, and both texts exactly when newline and tab are their only control
   * characters, whatever else they contain, the text of other keys included.
   */
  lemma ResultReadsBack(r: CommandResult)
    ensures UintField(ResultJson(r), "exit_code") == if r.exitCode < 0 then Absent else Value(r.exitCode as nat)
    ensures BoolField(ResultJson(r), "timed_out") == r.timedOut
    ensures UintField(ResultJson(r), "duration_ms") == if r.duration < 0 then Absent else Value(r.duration as nat)
    ensures StringField(ResultJson(r), "stdout") == Some(r.out) <==> Plain(r.out)
    ensures StringField(ResultJson(r), "stderr") == Some(r.err) <==> Plain(r.err)
  {
    ExitCodeReadsBack(r);
    TimedOutReadsBack(r);
    DurationReadsBack(r);
    StdoutReadsBack(r);
    StderrReadsBack(r);
    SurvivesExactly(r.out);
    SurvivesExactly(r.err);
  }
}
