/**
 The log line parser of the broker: `key=value` pairs, quoted values, escapes.

 `Fields` describes how a line splits into pairs, and `ParseSlogLine` is the parser with its
 nested index loops. `SlogPrinter` has a printer that the parser undoes.
 */
module SlogLine {
  import opened Sequences
  import opened Wrappers
  import opened TextSearch
  import opened Space

  datatype LogEvent = LogEvent(time: int, level: string, message: string, attrs: map<string, string>)

  datatype Field = Field(key: string, value: string)

  const TIME := "time"
  const LEVEL := "level"
  const MESSAGE := "msg"

  // ---------- How a line splits into fields ----------

  /** What the parser writes for a backslash and the character after it. */
  function Unescaped(c: char): string {
    if c == 'n' then "\n"
    else if c == 't' then "\t"
    else if c == 'r' then "\r"
    else if c == '\\' then "\\"
    else if c == '"' then "\""
    else ['\\', c]
  }

  /** The value of a quoted text whose opening quote is before `i`, and the position after it. */
  function Quoted(line: string, i: nat): (r: (string, nat))
    requires i <= |line|
    ensures i <= r.1 <= |line|
    decreases |line| - i
  {
    if i == |line| then ("", i)
    else if line[i] == '\\' && i + 1 < |line| then
      var (rest, next) := Quoted(line, i + 2);
      (Unescaped(line[i + 1]) + rest, next)
    else if line[i] == '"' then ("", i + 1)
    else
      var (rest, next) := Quoted(line, i + 1);
      ([line[i]] + rest, next)
  }

  function ValueAt(line: string, i: nat): (r: (string, nat))
    requires i <= |line|
    ensures i <= r.1 <= |line|
  {
    if i < |line| && line[i] == '"' then Quoted(line, i + 1)
    else var e := Until(line, i, Rune(' ')); (line[i..e], e)
  }

  /** The first field at or after `i`, and the position after it; none without an equals sign. */
  function FirstField(line: string, i: nat): (r: Option<(Field, nat)>)
    requires i <= |line|
    ensures r.Some? ==> i < r.value.1 <= |line|
  {
    var start := While(line, i, ' ');
    var e := Until(line, start, Rune('='));
    if e == |line| then None else
      var (value, next) := ValueAt(line, e + 1);
      Some((Field(line[start..e], value), next))
  }

  function Fields(line: string, i: nat): seq<Field>
    requires i <= |line|
    decreases |line| - i
  {
    match FirstField(line, i)
    case None => []
    case Some((f, next)) => [f] + Fields(line, next)
  }

  // ---------- What the fields of a line make of an event ----------

  /** `parseTime` reads a timestamp; what it accepts is not part of this model. */
  function Apply(event: LogEvent, f: Field, parseTime: string -> Option<int>): LogEvent {
    if f.key == TIME then
      match parseTime(f.value)
      case Some(t) => event.(time := t)
      case None => event
    else if f.key == LEVEL then event.(level := f.value)
    else if f.key == MESSAGE then event.(message := f.value)
    else event.(attrs := event.attrs[f.key := f.value])
  }

  function ApplyAll(event: LogEvent, fs: seq<Field>, parseTime: string -> Option<int>): LogEvent
    decreases |fs|
  {
    if fs == [] then event else ApplyAll(Apply(event, fs[0], parseTime), fs[1..], parseTime)
  }

  function Blank(now: int): LogEvent {
    LogEvent(now, "INFO", "", map[])
  }

  /** The event of a trimmed line: a line without a message is its own message. */
  function EventOf(line: string, now: int, parseTime: string -> Option<int>): LogEvent {
    var event := ApplyAll(Blank(now), Fields(line, 0), parseTime);
    if event.message == "" then event.(message := TrimSpace(line)) else event
  }

  // ---------- The parser ----------

  /** Reads a quoted value; `start` is the position after the opening quote. */
  method ParseQuoted(line: string, start: nat) returns (value: string, i: nat)
    requires start <= |line|
    ensures value == Quoted(line, start).0 && i == Quoted(line, start).1
  {
    value, i := "", start;
    while i < |line|
      invariant start <= i <= |line|
      invariant Quoted(line, start).0 == value + Quoted(line, i).0
      invariant Quoted(line, start).1 == Quoted(line, i).1
    {
      if line[i] == '\\' && i + 1 < |line| {
        i := i + 1;
        Regroup(value, Unescaped(line[i]), Quoted(line, i + 1).0);
        value := value + Unescaped(line[i]);
        i := i + 1;
      } else if line[i] == '"' {
        assert value + "" == value;
        i := i + 1;
        return;
      } else {
        Regroup(value, [line[i]], Quoted(line, i + 1).0);
        value := value + [line[i]];
        i := i + 1;
      }
    }
  }

  method ParseValue(line: string, start: nat) returns (value: string, i: nat)
    requires start <= |line|
    ensures (value, i) == ValueAt(line, start)
  {
    if start < |line| && line[start] == '"' {
      value, i := ParseQuoted(line, start + 1);
    } else {
      i := start;
      while i < |line| && line[i] != ' '
        invariant start <= i <= |line|
        invariant Until(line, i, Rune(' ')) == Until(line, start, Rune(' '))
      {
        i := i + 1;
      }
      value := line[start..i];
    }
  }

  method ParseField(line: string, start: nat) returns (field: Option<(Field, nat)>)
    requires start <= |line|
    ensures field == FirstField(line, start)
  {
    var i := start;
    while i < |line| && line[i] == ' '
      invariant start <= i <= |line|
      invariant While(line, i, ' ') == While(line, start, ' ')
    {
      i := i + 1;
    }
    var keyStart := i;
    while i < |line| && line[i] != '='
      invariant keyStart <= i <= |line|
      invariant Until(line, i, Rune('=')) == Until(line, keyStart, Rune('='))
    {
      i := i + 1;
    }
    if i >= |line| {
      return None;
    }
    var key := line[keyStart..i];
    var value, next := ParseValue(line, i + 1);
    return Some((Field(key, value), next));
  }

  /** Parses a log line: in bounds and terminating on every input. */
  method ParseSlogLine(p: string, now: int, parseTime: string -> Option<int>) returns (event: LogEvent)
    ensures event == EventOf(TrimSpace(p), now, parseTime)
  {
    var line := TrimSpace(p);
    event := Blank(now);
    var i := 0;
    while i < |line|
      invariant 0 <= i <= |line|
      invariant ApplyAll(event, Fields(line, i), parseTime) == ApplyAll(Blank(now), Fields(line, 0), parseTime)
    {
      var field := ParseField(line, i);
      if field.None? {
        break;
      }
      var (f, next) := field.value;
      assert Fields(line, i)[1..] == Fields(line, next);
      event, i := Apply(event, f, parseTime), next;
    }
    if event.message == "" {
      event := event.(message := TrimSpace(line));
    }
  }
}
