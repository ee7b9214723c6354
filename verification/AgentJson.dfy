/**
 * The JSON writer and field readers of the C++ agent (`linux_net_agent/src/main.cpp`).
 *
 * Strings are byte strings in the source; a `char` here stands for one byte.  The code tells apart
 * the bytes below 0x20, a few punctuation bytes, letters of the keys and digits, and treats every
 * other byte alike.
 */
module AgentJson {
  import opened Numerals
  import opened Types

  const UINT64_MAX: nat := 0xFFFF_FFFF_FFFF_FFFF

  newtype int32 = x: int | -0x8000_0000 <= x < 0x8000_0000
  newtype int64 = x: int | -0x8000_0000_0000_0000 <= x < 0x8000_0000_0000_0000

  datatype CommandResult = CommandResult(exitCode: int32, timedOut: bool, duration: int64, out: string, err: string)

  // What `json_uint_field` can do: find no number, return one, or throw `std::out_of_range`.
  datatype Reading = Absent | Value(n: nat) | OutOfRange

  // ---------- Writing ----------

  function EscapeChar(ch: char): string {
    if ch == '\\' then "\\\\"
    else if ch == '"' then "\\\""
    else if ch == '\n' then "\\n"
    else if ch == '\r' then "\\r"
    else if ch == '\t' then "\\t"
    else if ch < ' ' then " "
    else [ch]
  }

  function Escape(s: string): string {
    if s == [] then [] else EscapeChar(s[0]) + Escape(s[1..])
  }

  lemma {:induction false} EscapeAppend(s: string, t: string)
    ensures Escape(s + t) == Escape(s) + Escape(t)
  {
    if s == [] {
      assert s + t == t;
    } else {
      assert (s + t)[1..] == s[1..] + t;
      EscapeAppend(s[1..], t);
    }
  }

  // `json_escape`
  method JsonEscape(input: string) returns (out: string)
    ensures out == Escape(input)
  {
    out := "";
    for i := 0 to |input|
      invariant out == Escape(input[..i])
    {
      var ch := input[i];
      EscapeAppend(input[..i], [ch]);
      assert input[..i + 1] == input[..i] + [ch];
      assert Escape([ch]) == EscapeChar(ch) + Escape([]);
      if ch == '\\' {
        out := out + "\\\\";
      } else if ch == '"' {
        out := out + "\\\"";
      } else if ch == '\n' {
        out := out + "\\n";
      } else if ch == '\r' {
        out := out + "\\r";
      } else if ch == '\t' {
        out := out + "\\t";
      } else if ch < ' ' {
        out := out + " ";
      } else {
        out := out + [ch];
      }
    }
    assert input[..|input|] == input;
  }

  function Quoted(name: string): string {
    "\"" + name + "\""
  }

  // The text printed before each key after the first.
  function ToTimedOut(r: CommandResult): string {
    "{" + Quoted("exit_code") + ":" + (Signed(r.exitCode as int) + ",")
  }

  function ToDuration(r: CommandResult): string {
    ToTimedOut(r) + Quoted("timed_out") + ":" + ((if r.timedOut then "true" else "false") + ",")
  }

  function ToStdout(r: CommandResult): string {
    ToDuration(r) + Quoted("duration_ms") + ":" + (Signed(r.duration as int) + ",")
  }

  function ToStderr(r: CommandResult): string {
    ToStdout(r) + Quoted("stdout") + ":" + (Quoted(Escape(r.out)) + ",")
  }

  // `command_result_json`
  function ResultJson(r: CommandResult): string {
    ToStderr(r) + Quoted("stderr") + ":" + (Quoted(Escape(r.err)) + "}")
  }

  // ---------- Searching ----------

  predicate OccursAt(body: string, needle: string, k: nat) {
    k + |needle| <= |body| && body[k..k + |needle|] == needle
  }

  // `std::string::find`: the first occurrence at or after `from`.
  function Find(body: string, needle: string, from: nat): (r: Option<nat>)
    ensures r.Some? ==> from <= r.value && OccursAt(body, needle, r.value)
    ensures r.Some? ==> forall k: nat :: from <= k < r.value ==> !OccursAt(body, needle, k)
    ensures r.None? ==> forall k: nat :: from <= k ==> !OccursAt(body, needle, k)
    decreases |body| - from
  {
    if from > |body| then None
    else if OccursAt(body, needle, from) then Some(from)
    else Find(body, needle, from + 1)
  }

  // Where the value of `name` is looked for: just after the first colon that follows the first
  // occurrence of the quoted name.
  function AfterColon(body: string, name: string): (r: Option<nat>)
    ensures r.Some? ==> r.value <= |body|
  {
    match Find(body, Quoted(name), 0)
    case None => None
    case Some(k) =>
      match Find(body, ":", k + |Quoted(name)|)
      case None => None
      case Some(c) => Some(c + 1)
  }

  // The place of a value: after the first colon after the first occurrence of the quoted name.
  lemma ValuePlace(body: string, name: string, k: nat, c: nat)
    requires OccursAt(body, "\"" + name + "\"", k) && forall i: nat :: i < k ==> !OccursAt(body, "\"" + name + "\"", i)
    requires k + |name| + 2 <= c < |body| && body[c] == ':' && forall i :: k + |name| + 2 <= i < c ==> body[i] != ':'
    ensures AfterColon(body, name) == Some(c + 1)
  {
    assert OccursAt(body, ":", c);
    forall i: nat | k + |name| + 2 <= i < c ensures !OccursAt(body, ":", i) {
      assert body[i..i + 1] == [body[i]];
    }
  }

  // ---------- Reading ----------

  function Unescaped(ch: char): char {
    if ch == 'n' then '\n' else if ch == 't' then '\t' else ch
  }

  function Prepend(v: string, r: Option<string>): Option<string> {
    if r.None? then None else Some(v + r.value)
  }

  // The characters up to the closing quote, escapes undone the way the agent undoes them.
  function ReadString(s: string, escaped: bool): Option<string> {
    if s == [] then None
    else if escaped then Prepend([Unescaped(s[0])], ReadString(s[1..], false))
    else if s[0] == '\\' then ReadString(s[1..], true)
    else if s[0] == '"' then Some([])
    else Prepend([s[0]], ReadString(s[1..], false))
  }

  function StringField(body: string, name: string): Option<string> {
    match AfterColon(body, name)
    case None => None
    case Some(p) =>
      match Find(body, "\"", p)
      case None => None
      case Some(q) => ReadString(body[q + 1..], false)
  }

  // The text starts at the first quote after the colon, whatever stands between.
  lemma TextPlace(body: string, name: string, p: nat, q: nat)
    requires AfterColon(body, name) == Some(p) && p <= q < |body|
    requires body[q] == '"' && forall i :: p <= i < q ==> body[i] != '"'
    ensures StringField(body, name) == ReadString(body[q + 1..], false)
  {
    assert OccursAt(body, "\"", q);
    forall i: nat | p <= i < q ensures !OccursAt(body, "\"", i) {
      assert body[i..i + 1] == [body[i]];
    }
  }

  // The lookup `json_string_field`, `json_uint_field` and `json_bool_field` all begin with.
  method Locate(body: string, name: string) returns (r: Option<nat>)
    ensures r == AfterColon(body, name)
  {
    var needle := "\"" + name + "\"";
    var found := Find(body, needle, 0);
    if found.None? {
      return None;
    }
    found := Find(body, ":", found.value + |needle|);
    if found.None? {
      return None;
    }
    return Some(found.value + 1);
  }

  // The character loop of `json_string_field`.
  method TakeString(body: string, start: nat) returns (r: Option<string>)
    requires start <= |body|
    ensures r == ReadString(body[start..], false)
  {
    var value, escaped := "", false;
    PrependNothing(ReadString(body[start..], false));
    var i := start;
    while i < |body|
      invariant start <= i <= |body|
      invariant ReadString(body[start..], false) == Prepend(value, ReadString(body[i..], escaped))
    {
      var ch := body[i];
      assert body[i..][1..] == body[i + 1..];
      if escaped {
        PrependTwice(value, [Unescaped(ch)], ReadString(body[i + 1..], false));
        value := value + [if ch == 'n' then '\n' else if ch == 't' then '\t' else ch];
        escaped := false;
      } else if ch == '\\' {
        escaped := true;
      } else if ch == '"' {
        assert value + [] == value;
        return Some(value);
      } else {
        PrependTwice(value, [ch], ReadString(body[i + 1..], false));
        value := value + [ch];
      }
      i := i + 1;
    }
    return None;
  }

  // `json_string_field`
  method JsonStringField(body: string, name: string) returns (r: Option<string>)
    ensures r == StringField(body, name)
  {
    var found := Locate(body, name);
    if found.None? {
      return None;
    }
    found := Find(body, "\"", found.value);
    if found.None? {
      return None;
    }
    r := TakeString(body, found.value + 1);
  }

  lemma PrependNothing(r: Option<string>)
    ensures Prepend("", r) == r
  {
    if r.Some? {
      assert "" + r.value == r.value;
    }
  }

  lemma PrependTwice(v: string, w: string, r: Option<string>)
    ensures Prepend(v, Prepend(w, r)) == Prepend(v + w, r)
  {
    if r.Some? {
      assert v + (w + r.value) == v + w + r.value;
    }
  }

  // `isspace` of the C locale.
  predicate IsSpace(ch: char) {
    ch == ' ' || '\t' <= ch <= '\r'
  }

  function SkipSpaces(s: string): string {
    if s != [] && IsSpace(s[0]) then SkipSpaces(s[1..]) else s
  }

  function LeadingDigits(s: string): (r: string)
    ensures AllDigits(r)
  {
    if s != [] && IsDigit(s[0]) then [s[0]] + LeadingDigits(s[1..]) else []
  }

  lemma {:induction false} DigitsUpTo(digits: string, rest: string)
    requires AllDigits(digits) && (rest == [] || !IsDigit(rest[0]))
    ensures LeadingDigits(digits + rest) == digits
  {
    if digits == [] {
      assert digits + rest == rest;
    } else {
      assert (digits + rest)[1..] == digits[1..] + rest;
      DigitsUpTo(digits[1..], rest);
      assert digits == [digits[0]] + digits[1..];
    }
  }

  // Space, tab, newline, vertical tab, form feed and carriage return, and nothing else.
  predicate Blank(s: string) {
    forall i :: 0 <= i < |s| ==> s[i] as int == 32 || 9 <= s[i] as int <= 13
  }

  lemma {:induction false} BlanksSkipped(blank: string, s: string)
    requires Blank(blank)
    ensures SkipSpaces(blank + s) == SkipSpaces(s)
  {
    if blank == [] {
      assert blank + s == s;
    } else {
      assert (blank + s)[1..] == blank[1..] + s;
      BlanksSkipped(blank[1..], s);
    }
  }

  lemma NothingSkipped(s: string)
    requires s == [] || !Blank(s[..1])
    ensures SkipSpaces(s) == s
  {
    if s != [] {
      assert s[..1][0] == s[0];
    }
  }

  function ReadUint(s: string): Reading {
    var digits := LeadingDigits(SkipSpaces(s));
    if digits == [] then Absent
    else if NumberOf(digits) > UINT64_MAX then OutOfRange
    else Value(NumberOf(digits))
  }

  function UintField(body: string, name: string): Reading {
    match AfterColon(body, name)
    case None => Absent
    case Some(p) => ReadUint(body[p..])
  }

  predicate ReadBool(s: string) {
    var t := SkipSpaces(s);
    |t| >= 4 && t[..4] == "true"
  }

  predicate BoolField(body: string, name: string) {
    match AfterColon(body, name)
    case None => false
    case Some(p) => ReadBool(body[p..])
  }

  // Where the white space that both readers skip after the colon ends.
  method PastSpaces(body: string, p: nat) returns (pos: nat)
    requires p <= |body|
    ensures p <= pos <= |body| && body[pos..] == SkipSpaces(body[p..])
  {
    pos := p;
    while pos < |body| && IsSpace(body[pos])
      invariant p <= pos <= |body|
      invariant SkipSpaces(body[pos..]) == SkipSpaces(body[p..])
    {
      assert body[pos..][1..] == body[pos + 1..];
      pos := pos + 1;
    }
  }

  // Where the run of digits that starts at `pos` ends.
  method PastDigits(body: string, pos: nat) returns (end: nat)
    requires pos <= |body|
    ensures pos <= end <= |body| && body[pos..end] == LeadingDigits(body[pos..])
  {
    end := pos;
    while end < |body| && IsDigit(body[end])
      invariant pos <= end <= |body| && AllDigits(body[pos..end])
    {
      assert body[pos..end + 1] == body[pos..end] + [body[end]];
      end := end + 1;
    }
    DigitsUpTo(body[pos..end], body[end..]);
    assert body[pos..] == body[pos..end] + body[end..];
  }

  // `json_uint_field`
  method JsonUintField(body: string, name: string) returns (r: Reading)
    ensures r == UintField(body, name)
  {
    var found := Locate(body, name);
    if found.None? {
      return Absent;
    }
    var pos := PastSpaces(body, found.value);
    var end := PastDigits(body, pos);
    if end == pos {
      return Absent;
    }
    var n := NumberOf(body[pos..end]);
    return if n > UINT64_MAX then OutOfRange else Value(n);
  }

  // `json_bool_field`
  method JsonBoolField(body: string, name: string) returns (r: bool)
    ensures r == BoolField(body, name)
  {
    var found := Locate(body, name);
    if found.None? {
      return false;
    }
    var pos := PastSpaces(body, found.value);
    r := pos + 4 <= |body| && body[pos..pos + 4] == "true";
    if pos + 4 <= |body| {
      assert body[pos..][..4] == body[pos..pos + 4];
    }
  }
}
