/** The state file: the printer `save_state` and the line scanner `load_state`. */
module StateFile {
  import opened CText
  import opened Table

  const MAX_LINE := 1023      // fgets into char line[1024]
  const MAX_SCANNED_ID := 255 // %255[^"]
  const MAX_ID := MAX_LINE - 16 // what fits on a line with `      "id": "` and `",`

  // --------------------------------------------------------------- printing

  datatype Key = Pid | State | CreatedAt | StartedAt | StoppedAt

  function KeyName(k: Key): (s: string) {
    match k
    case Pid => "pid"
    case State => "state"
    case CreatedAt => "created_at"
    case StartedAt => "started_at"
    case StoppedAt => "stopped_at"
  }

  function Quoted(s: string): (r: string) { "\"" + s + "\"" }

  function IdText(id: string): (r: string) { Quoted("id") + (":" + (" " + ("\"" + (id + "\",\n")))) }

  function IdLine(id: string): (r: string) { "      " + IdText(id) }

  function FieldText(name: string, v: int, end: string): (r: string) {
    Quoted(name) + (":" + (" " + (PrintInt(v) + end)))
  }

  function KeyLine(k: Key, v: int, end: string): (r: string) { "      " + FieldText(KeyName(k), v, end) }

  /** The lines `save_state` prints. */
  datatype Line =
    | OpenFile | Containers | CloseList | CloseFile
    | OpenRecord | IdField(id: string) | Field(key: Key, value: int64, lastField: bool) | CloseRecord(lastRecord: bool)

  function Render(l: Line): (s: string) {
    match l
    case OpenFile => "{\n"
    case Containers => "  " + (Quoted("containers") + ": [\n")
    case CloseList => "  " + "]\n"
    case CloseFile => "}\n"
    case OpenRecord => "    " + "{\n"
    case IdField(id) => IdLine(id)
    case Field(k, v, last) => KeyLine(k, v, if last then "\n" else ",\n")
    case CloseRecord(last) => "    " + (if last then "}\n" else "},\n")
  }

  function RecordLines(e: Info, last: bool): (ls: seq<Line>) {
    [ OpenRecord,
      IdField(e.id),
      Field(Pid, e.pid, false),
      Field(State, e.state, false),
      Field(CreatedAt, e.createdAt, false),
      Field(StartedAt, e.startedAt, false),
      Field(StoppedAt, e.stoppedAt, true),
      CloseRecord(last) ]
  }

  /** The lines from position `i` on, joined. */
  function Join(ls: seq<Line>, i: nat := 0): (s: string)
    requires i <= |ls|
    decreases |ls| - i
  {
    if i == |ls| then "" else Render(ls[i]) + Join(ls, i + 1)
  }

  /** Records from position `i` to the end, then the closing lines. */
  function PrintFrom(t: seq<Info>, i: nat): (s: string)
    requires i <= |t|
    decreases |t| - i
  {
    if i == |t| then Join([CloseList, CloseFile])
    else Join(RecordLines(t[i], i == |t| - 1)) + PrintFrom(t, i + 1)
  }

  /** Everything `save_state` writes. */
  function PrintState(t: seq<Info>): (s: string) {
    Join([OpenFile, Containers]) + PrintFrom(t, 0)
  }

  // --------------------------------------------------------------- scanning

  /** The scanner's variables between two lines. */
  datatype Record = Record(
    inContainer: bool, id: string, pid: int32, state: int32,
    createdAt: int64, startedAt: int64, stoppedAt: int64)

  const BLANK := Record(false, "", 0, 0, 0, 0, 0)

  /** What the loader asks the system: live pids and the time. */
  datatype Probe = Probe(alive: set<int32>, now: int64)

  predicate IsAlive(p: Probe, pid: int32) { pid > 0 && pid in p.alive }

  /** The length of what one `fgets` returns. */
  function LineLength(s: string, k: nat := 0): (n: nat)
    requires k < |s| && k < MAX_LINE
    ensures k < n <= |s| && n <= MAX_LINE
    ensures forall i :: k <= i < n - 1 ==> s[i] != '\n'
    ensures n < |s| && n < MAX_LINE ==> s[n - 1] == '\n'
    decreases |s| - k
  {
    if s[k] == '\n' || k + 1 == |s| || k + 1 == MAX_LINE then k + 1 else LineLength(s, k + 1)
  }

  function SkipBlank(s: string): (r: string)
    ensures |r| <= |s|
  {
    if s != "" && (s[0] == ' ' || s[0] == '\t') then SkipBlank(s[1..]) else s
  }

  predicate Ignored(p: string) {
    p == "" || p[0] == '\n' || p[0] == '{' || p[0] == '[' || p[0] == ']'
  }

  /** One literal directive of a `sscanf` format, with the blank directive before it. */
  function Literal(s: string, lit: string): (r: Option<string>) {
    var t := SkipSpace(s);
    if lit <= t then Some(t[|lit|..]) else None
  }

  /** `sscanf(p, " \"name\": %ld", &v)`. */
  function ScanField(p: string, name: string): (r: Option<int64>) {
    match Literal(p, Quoted(name) + ":")
    case None => None
    case Some(rest) => match ScanNumber(rest)
      case None => None
      case Some((v, _)) => Some(Saturate(v))
  }

  function UpToQuote(s: string): (r: string) {
    if s == "" || s[0] == '"' then "" else [s[0]] + UpToQuote(s[1..])
  }

  function ScanId(p: string): (r: Option<string>) {
    match Literal(p, Quoted("id") + ":")
    case None => None
    case Some(rest) => match Literal(rest, "\"")
      case None => None
      case Some(text) =>
        var s := UpToQuote(text);
        if s == "" then None else Some(if |s| <= MAX_SCANNED_ID then s else s[..MAX_SCANNED_ID])
  }

  function FirstKey(p: string): (r: Option<Key>) {
    if Contains(p, Quoted("pid")) then Some(Pid)
    else if Contains(p, Quoted("state")) then Some(State)
    else if Contains(p, Quoted("created_at")) then Some(CreatedAt)
    else if Contains(p, Quoted("started_at")) then Some(StartedAt)
    else if Contains(p, Quoted("stopped_at")) then Some(StoppedAt)
    else None
  }

  function Assign(r: Record, k: Key, v: int64): (r': Record) {
    match k
    case Pid => r.(pid := Wrap32(v))
    case State => r.(state := Wrap32(v))
    case CreatedAt => r.(createdAt := v)
    case StartedAt => r.(startedAt := v)
    case StoppedAt => r.(stoppedAt := v)
  }

  function ReadKey(r: Record, p: string): (r': Record) {
    if Contains(p, Quoted("id")) then
      r.(inContainer := true, id := match ScanId(p) { case Some(s) => s case None => r.id })
    else if !r.inContainer then r
    else match FirstKey(p)
      case None => r
      case Some(k) => match ScanField(p, KeyName(k))
        case None => r
        case Some(v) => Assign(r, k, v)
  }

  predicate Closes(r: Record, p: string) {
    r.inContainer && (Contains(p, "}") || Contains(p, "},")) && r.id != ""
  }

  /** A record is kept unless it ended, or runs under a pid that is gone. */
  predicate Keeps(state: int32, pid: int32, p: Probe) {
    state != DESTROYED && state != STOPPED && (state == RUNNING ==> IsAlive(p, pid))
  }

  /** A name that is not a positive decimal is replaced by the next free number. */
  function LoadedId(t: seq<Info>, id: string): (r: string) {
    if NumericId(id) < 0 then NextId(t) else id
  }

  function Commit(t: seq<Info>, r: Record, p: Probe): (t': seq<Info>) {
    if Keeps(r.state, r.pid, p)
    then t + [Info(LoadedId(t, r.id), r.pid, r.state, r.createdAt, r.startedAt, r.stoppedAt, None)]
    else t
  }

  lemma CommitLength(t: seq<Info>, r: Record, p: Probe)
    ensures |Commit(t, r, p)| == |t| || |Commit(t, r, p)| == |t| + 1
    ensures |Commit(t, r, p)| == |t| ==> Commit(t, r, p) == t
  {
  }

  /** One turn of the loop in `load_state`. */
  function ScanLine(r: Record, t: seq<Info>, line: string, p: Probe): (s: (Record, seq<Info>)) {
    var text := SkipBlank(line);
    if Ignored(text) then (r, t)
    else
      var r1 := ReadKey(r, text);
      if Closes(r1, text) then (BLANK, Commit(t, r1, p)) else (r1, t)
  }

  function ScanText(r: Record, t: seq<Info>, text: string, p: Probe): (t': seq<Info>)
    decreases |text|
  {
    if text == "" then t
    else
      var n := LineLength(text);
      var (r1, t1) := ScanLine(r, t, text[..n], p);
      ScanText(r1, t1, text[n..], p)
  }

  /** The table `load_state` builds from an empty one; no file loads nothing. */
  function LoadState(file: Option<string>, p: Probe): (t: seq<Info>) {
    match file
    case None => []
    case Some(text) => ScanText(BLANK, [], text, p)
  }

  // -------------------------------------------------------------- reference

  function Forget(e: Info): (r: Info) { e.(config := None) }

  predicate KeepsEntry(e: Info, p: Probe) { Keeps(e.state, e.pid, p) }

  /** The kept entries in order, without their configurations. */
  function Kept(t: seq<Info>, p: Probe): (r: seq<Info>) {
    if t == [] then []
    else Kept(t[..|t| - 1], p) + (if KeepsEntry(t[|t| - 1], p) then [Forget(t[|t| - 1])] else [])
  }

  /** The kept entries with non-numeric names replaced from left to right. */
  function Restored(t: seq<Info>, p: Probe): (r: seq<Info>) {
    if t == [] then []
    else
      var r := Restored(t[..|t| - 1], p);
      var e := t[|t| - 1];
      if KeepsEntry(e, p) then r + [Forget(e).(id := LoadedId(r, e.id))] else r
  }

  /** An id whose line the scanner gets in one piece. */
  predicate OneLine(id: string) { |id| <= MAX_ID && '\n' !in id }

  ghost predicate OneLineIds(t: seq<Info>) { forall e <- t :: OneLine(e.id) }

  /** What the scanner reads of an id: up to the first quote, at most 255 characters. */
  function Cut(id: string): (r: string) {
    var s := UpToQuote(id);
    if |s| <= MAX_SCANNED_ID then s else s[..MAX_SCANNED_ID]
  }

  /** An id that is printed on one line and read back whole. */
  predicate PrintableId(id: string) {
    0 < |id| <= MAX_SCANNED_ID && '"' !in id && '\n' !in id
  }

  /** An id that, moreover, does not close the record early. */
  predicate SafeId(id: string) { PrintableId(id) && '}' !in id }

  ghost predicate SafeIds(t: seq<Info>) { forall e <- t :: SafeId(e.id) }

  /** An id that loads under its own name. */
  predicate LoadableId(id: string) { SafeId(id) && NumericId(id) >= 0 }

  // ------------------------------------------------------------ line lemmas

  ghost predicate IsLine(l: string) {
    0 < |l| <= MAX_LINE && l[|l| - 1] == '\n' && forall i :: 0 <= i < |l| - 1 ==> l[i] != '\n'
  }

  lemma {:induction false} LineLengthOf(l: string, rest: string, k: nat)
    requires IsLine(l) && k < |l|
    ensures k < |l + rest| && k < MAX_LINE
    ensures LineLength(l + rest, k) == |l|
    decreases |l| - k
  {
    if k < |l| - 1 {
      LineLengthOf(l, rest, k + 1);
    }
  }

  /** The scanner reads a whole line and goes on behind it. */
  lemma ScanOneLine(r: Record, t: seq<Info>, l: string, rest: string, p: Probe)
    requires IsLine(l)
    ensures var (r1, t1) := ScanLine(r, t, l, p); ScanText(r, t, l + rest, p) == ScanText(r1, t1, rest, p)
  {
    LineLengthOf(l, rest, 0);
    assert (l + rest)[..|l|] == l;
    assert (l + rest)[|l|..] == rest;
  }

  lemma {:induction false} SkipBlankRun(blanks: string, rest: string)
    requires forall i :: 0 <= i < |blanks| ==> blanks[i] == ' ' || blanks[i] == '\t'
    requires rest != "" && rest[0] != ' ' && rest[0] != '\t'
    ensures SkipBlank(blanks + rest) == rest
  {
    if blanks == "" {
      assert blanks + rest == rest;
    } else {
      assert (blanks + rest)[1..] == blanks[1..] + rest;
      SkipBlankRun(blanks[1..], rest);
    }
  }

  /** In a line whose only quotes surround its key, a quoted name occurs exactly
      when it is the key. */
  lemma QuotedKeyOnly(key: string, tail: string, name: string)
    requires '"' !in key && '"' !in tail && '"' !in name
    ensures Contains(Quoted(key) + tail, Quoted(name)) <==> key == name
  {
    var s := Quoted(key) + tail;
    if key == name {
      assert MatchesAt(s, Quoted(name), 0);
    }
    if i :| 0 <= i <= |s| && MatchesAt(s, Quoted(name), i) {
      var m := s[i..i + |name| + 2];
      assert m == Quoted(name);
      assert m[0] == '"' && m[|name| + 1] == '"';
      assert s[i] == '"' && s[i + |name| + 1] == '"';
      assert forall j :: 0 <= j < |s| && s[j] == '"' ==> j == 0 || j == |key| + 1;
      assert m[1..|name| + 1] == name && s[1..|key| + 1] == key;
    }
  }

  lemma FirstKeyOf(k: Key, tail: string)
    requires '"' !in tail
    ensures !Contains(Quoted(KeyName(k)) + tail, Quoted("id"))
    ensures FirstKey(Quoted(KeyName(k)) + tail) == Some(k)
  {
    var key := KeyName(k);
    QuotedKeyOnly(key, tail, "id");
    QuotedKeyOnly(key, tail, "pid");
    QuotedKeyOnly(key, tail, "state");
    QuotedKeyOnly(key, tail, "created_at");
    QuotedKeyOnly(key, tail, "started_at");
    QuotedKeyOnly(key, tail, "stopped_at");
  }

  // ---------------------------------------------------------- record lemmas

  ghost predicate IsEnd(s: string) { s == ",\n" || s == "\n" }

  function NumberTail(v: int, end: string): (r: string) { ":" + (" " + (PrintInt(v) + end)) }

  lemma NumberTailChars(v: int, end: string)
    requires IsEnd(end)
    ensures '"' !in NumberTail(v, end) && '}' !in NumberTail(v, end)
  {
  }

  lemma LiteralOf(blanks: string, lit: string, rest: string)
    requires forall i :: 0 <= i < |blanks| ==> IsSpace(blanks[i])
    requires lit != "" && !IsSpace(lit[0])
    ensures Literal(blanks + (lit + rest), lit) == Some(rest)
  {
    SkipSpaceRun(blanks, lit + rest);
    assert (lit + rest)[|lit|..] == rest;
  }

  lemma ScanFieldText(name: string, v: int64, end: string)
    requires IsEnd(end)
    ensures ScanField(FieldText(name, v, end), name) == Some(v)
  {
    var lit := Quoted(name) + ":";
    var num := " " + (PrintInt(v) + end);
    assert FieldText(name, v, end) == "" + (lit + num);
    LiteralOf("", lit, num);
    ScanPrintedAfterBlank(v, end);
  }

  ghost predicate Fits(k: Key, v: int64) { k == Pid || k == State ==> INT_MIN <= v <= INT_MAX }

  lemma ScanFieldLine(r: Record, t: seq<Info>, name: string, v: int64, end: string, p: Probe)
    requires IsEnd(end) && '"' !in name && '}' !in name
    ensures var text := FieldText(name, v, end);
      ScanLine(r, t, "      " + text, p) == (ReadKey(r, text), t)
  {
    var text := FieldText(name, v, end);
    assert text[0] == '"';
    SkipBlankRun("      ", text);
    NumberTailChars(v, end);
    assert text == Quoted(name) + NumberTail(v, end);
    NoBrace(text);
  }

  /** A printed field sets exactly its own variable, only inside a record, and commits nothing. */
  lemma ScanKeyLine(r: Record, t: seq<Info>, k: Key, v: int64, end: string, p: Probe)
    requires IsEnd(end)
    ensures ScanLine(r, t, KeyLine(k, v, end), p) == (if r.inContainer then Assign(r, k, v) else r, t)
  {
    var name := KeyName(k);
    ScanFieldLine(r, t, name, v, end, p);
    NumberTailChars(v, end);
    FirstKeyOf(k, NumberTail(v, end));
    ScanFieldText(name, v, end);
  }

  /** A field keeps the number it was given; pid and state keep its low 32 bits. */
  lemma AssignKeeps(r: Record, k: Key, v: int64)
    ensures var r' := Assign(r, k, v);
      match k
      case Pid => r' == r.(pid := r'.pid) && (v - r'.pid) % 0x1_0000_0000 == 0
      case State => r' == r.(state := r'.state) && (v - r'.state) % 0x1_0000_0000 == 0
      case CreatedAt => r' == r.(createdAt := v)
      case StartedAt => r' == r.(startedAt := v)
      case StoppedAt => r' == r.(stoppedAt := v)
  {
  }

  lemma NoBrace(text: string)
    requires '}' !in text
    ensures !Contains(text, "}") && !Contains(text, "},")
  {
    if Contains(text, "}") {
      ContainsFirst(text, "}");
    }
    if Contains(text, "},") {
      ContainsFirst(text, "},");
    }
  }

  lemma {:induction false} UpToQuoteOf(id: string, tail: string)
    requires tail != "" && tail[0] == '"'
    ensures UpToQuote(id + tail) == UpToQuote(id)
  {
    if id == "" {
      assert id + tail == tail;
    } else {
      assert (id + tail)[1..] == id[1..] + tail;
      UpToQuoteOf(id[1..], tail);
    }
  }

  lemma {:induction false} UpToQuoteWhole(id: string)
    ensures UpToQuote(id) <= id && '"' !in UpToQuote(id)
    ensures UpToQuote(id) == id <==> '"' !in id
  {
    if id != "" && id[0] != '"' {
      UpToQuoteWhole(id[1..]);
      assert id == [id[0]] + id[1..];
    }
  }

  /** An id is read whole exactly when it has no quote and is not too long. */
  lemma CutWholeIff(id: string)
    ensures Cut(id) <= id && '"' !in Cut(id) && |Cut(id)| <= MAX_SCANNED_ID
    ensures Cut(id) == id <==> '"' !in id && |id| <= MAX_SCANNED_ID
  {
    UpToQuoteWhole(id);
  }

  lemma ScanIdText(id: string)
    ensures ScanId(IdText(id)) == if Cut(id) == "" then None else Some(Cut(id))
  {
    hide UpToQuote, SkipSpace;
    var lit := Quoted("id") + ":";
    var quoted := "\"" + (id + "\",\n");
    assert IdText(id) == "" + (lit + (" " + quoted));
    LiteralOf("", lit, " " + quoted);
    LiteralOf(" ", "\"", id + "\",\n");
    UpToQuoteOf(id, "\",\n");
  }

  lemma IdTextChars(id: string)
    ensures IdText(id) != "" && IdText(id)[0] == '"'
    ensures '}' in IdText(id) <==> '}' in id
    ensures Contains(IdText(id), Quoted("id"))
  {
    assert MatchesAt(IdText(id), Quoted("id"), 0);
  }

  /** The record after an id line: nothing is read of an empty id or one that begins
      with a quote, and the old id stays. */
  function Opened(r: Record, id: string): (r': Record) {
    r.(inContainer := true, id := if Cut(id) == "" then r.id else Cut(id))
  }

  /** The id line opens a record; a brace inside the id also closes it at once. */
  lemma ScanIdLine(r: Record, t: seq<Info>, id: string, p: Probe)
    ensures ScanLine(r, t, IdLine(id), p) ==
      if '}' in id && Opened(r, id).id != "" then (BLANK, Commit(t, Opened(r, id), p)) else (Opened(r, id), t)
  {
    hide Cut;
    IdTextChars(id);
    SkipBlankRun("      ", IdText(id));
    ScanIdText(id);
    if '}' in id {
      ContainsChar(IdText(id), '}');
    } else {
      NoBrace(IdText(id));
    }
  }

  /** An empty line or one that begins with one of three brackets is passed over. */
  lemma ScanOpenLine(r: Record, t: seq<Info>, blanks: string, l: string, p: Probe)
    requires forall i :: 0 <= i < |blanks| ==> blanks[i] == ' '
    requires l != "" && (l[0] == '\n' || l[0] == '{' || l[0] == '[' || l[0] == ']')
    ensures ScanLine(r, t, blanks + l, p) == (r, t)
  {
    SkipBlankRun(blanks, l);
  }

  lemma ScanCloseLine(r: Record, t: seq<Info>, blanks: string, l: string, p: Probe)
    requires forall i :: 0 <= i < |blanks| ==> blanks[i] == ' '
    requires l == "}\n" || l == "},\n"
    ensures ScanLine(r, t, blanks + l, p) == Close(r, t, p)
  {
    SkipBlankRun(blanks, l);
    ContainsChar(l, '}');
    NoQuoteNoKey(l);
  }

  lemma NoQuoteNoKey(l: string)
    requires '"' !in l
    ensures !Contains(l, Quoted("id")) && FirstKey(l).None?
  {
    forall name: string
      ensures !Contains(l, Quoted(name))
    {
      if Contains(l, Quoted(name)) {
        ContainsFirst(l, Quoted(name));
      }
    }
  }

  // ------------------------------------------------------------- line steps

  /** What a printed line does to the scanner. */
  function Step(r: Record, t: seq<Info>, l: Line, p: Probe): (s: (Record, seq<Info>)) {
    match l
    case IdField(id) =>
      var r1 := Opened(r, id);
      if '}' in id && r1.id != "" then (BLANK, Commit(t, r1, p)) else (r1, t)
    case Field(k, v, _) => (if r.inContainer then Assign(r, k, v) else r, t)
    case CloseRecord(_) => Close(r, t, p)
    case CloseFile => Close(r, t, p)
    case _ => (r, t)
  }

  function Close(r: Record, t: seq<Info>, p: Probe): (s: (Record, seq<Info>)) {
    if r.inContainer && r.id != "" then (BLANK, Commit(t, r, p)) else (r, t)
  }

  ghost predicate Printable(l: Line) {
    match l
    case IdField(id) => OneLine(id)
    case Field(k, v, _) => Fits(k, v)
    case _ => true
  }

  lemma ScanContainersLine(r: Record, t: seq<Info>, p: Probe)
    ensures ScanLine(r, t, Render(Containers), p) == (r, t)
  {
    var tail := ": [\n";
    SkipBlankRun("  ", Quoted("containers") + tail);
    QuotedKeyOnly("containers", tail, "id");
    QuotedKeyOnly("containers", tail, "pid");
    QuotedKeyOnly("containers", tail, "state");
    QuotedKeyOnly("containers", tail, "created_at");
    QuotedKeyOnly("containers", tail, "started_at");
    QuotedKeyOnly("containers", tail, "stopped_at");
    NoBrace(Quoted("containers") + tail);
  }

  lemma ScanRendered(r: Record, t: seq<Info>, l: Line, p: Probe)
    requires Printable(l)
    ensures ScanLine(r, t, Render(l), p) == Step(r, t, l, p)
  {
    match l
    case OpenFile =>
    case Containers => ScanContainersLine(r, t, p);
    case CloseList => ScanOpenLine(r, t, "  ", "]\n", p);
    case CloseFile => ScanCloseLine(r, t, "", "}\n", p); assert "" + "}\n" == "}\n";
    case OpenRecord => ScanOpenLine(r, t, "    ", "{\n", p);
    case IdField(id) => ScanIdLine(r, t, id, p);
    case Field(k, v, last) => ScanKeyLine(r, t, k, v, if last then "\n" else ",\n", p);
    case CloseRecord(last) => ScanCloseLine(r, t, "    ", if last then "}\n" else "},\n", p);
  }

  lemma LongPrintsShort(v: int64)
    ensures |PrintInt(v)| <= 20
  {
    assert Pow10(9) == 1_000_000_000;
    assert Pow10(14) == 100_000_000_000_000;
    assert Pow10(19) == 10_000_000_000_000_000_000;
    var a: int := if v < 0 then -(v as int) else v;
    PrintedLength(a, 19);
  }

  /** Text without a newline, closed by one, is a line. */
  lemma ClosedByNewline(body: string)
    requires |body| < MAX_LINE && '\n' !in body
    ensures IsLine(body + "\n")
  {
  }

  lemma FieldIsLine(name: string, v: int64, last: bool)
    requires '\n' !in name && |name| <= 20
    ensures IsLine("      " + FieldText(name, v, if last then "\n" else ",\n"))
  {
    LongPrintsShort(v);
    var body := "      " + (Quoted(name) + (":" + (" " + (PrintInt(v) + (if last then "" else ",")))));
    assert "      " + FieldText(name, v, if last then "\n" else ",\n") == body + "\n";
    ClosedByNewline(body);
  }

  lemma IdIsLine(id: string)
    requires OneLine(id)
    ensures IsLine(IdLine(id))
  {
    var body := "      " + (Quoted("id") + (":" + (" " + ("\"" + (id + "\",")))));
    assert IdLine(id) == body + "\n";
    ClosedByNewline(body);
  }

  lemma RenderIsLine(l: Line)
    requires Printable(l)
    ensures IsLine(Render(l))
  {
    match l
    case IdField(id) => IdIsLine(id);
    case Field(k, v, last) => FieldIsLine(KeyName(k), v, last);
    case _ =>
  }

  // ------------------------------------------------------------- round trip

  function Steps(r: Record, t: seq<Info>, ls: seq<Line>, i: nat, p: Probe): (s: (Record, seq<Info>))
    requires i <= |ls|
    decreases |ls| - i
  {
    if i == |ls| then (r, t)
    else var (r1, t1) := Step(r, t, ls[i], p); Steps(r1, t1, ls, i + 1, p)
  }

  /** Scanning printed lines is running their steps. */
  lemma {:induction false} ScanJoined(r: Record, t: seq<Info>, ls: seq<Line>, i: nat, rest: string, p: Probe)
    requires i <= |ls| && forall l <- ls :: Printable(l)
    ensures var (r1, t1) := Steps(r, t, ls, i, p); ScanText(r, t, Join(ls, i) + rest, p) == ScanText(r1, t1, rest, p)
    decreases |ls| - i
  {
    hide Render, Step, ScanLine, ScanText, Printable, IsLine;
    if i == |ls| {
      assert Join(ls, i) + rest == rest;
    } else {
      var (r1, t1) := Step(r, t, ls[i], p);
      assert Join(ls, i) + rest == Render(ls[i]) + (Join(ls, i + 1) + rest);
      RenderIsLine(ls[i]);
      ScanRendered(r, t, ls[i], p);
      ScanOneLine(r, t, Render(ls[i]), Join(ls, i + 1) + rest, p);
      ScanJoined(r1, t1, ls, i + 1, rest, p);
    }
  }

  /** The entry whose fields go with the id of entry `i`. A brace in the id closes the
      record before its own fields: they are then those of the entry before, if nothing was
      read of its id, and otherwise blank. */
  function FieldsFrom(t: seq<Info>, i: nat): (j: Option<nat>)
    requires i < |t|
    ensures j.Some? ==> j.value <= i
  {
    if '}' !in t[i].id then Some(i) else if i > 0 && Cut(t[i - 1].id) == "" then Some(i - 1) else None
  }

  /** The entry the scanner sees under the id of entry `i`. */
  function Seen(t: seq<Info>, i: nat): (e: Info)
    requires i < |t|
  {
    match FieldsFrom(t, i)
    case Some(j) => t[j].(id := Cut(t[i].id))
    case None => Info(Cut(t[i].id), 0, 0, 0, 0, 0, None)
  }

  /** The entries the scanner sees: none where it reads nothing of the id. */
  function SeenAll(t: seq<Info>): (r: seq<Info>) {
    if t == [] then []
    else SeenAll(t[..|t| - 1]) + (if Cut(t[|t| - 1].id) == "" then [] else [Seen(t, |t| - 1)])
  }

  /** What the scanner still holds behind the records of `t`. */
  function Pending(t: seq<Info>): (r: Record) {
    if t != [] && Cut(t[|t| - 1].id) == "" then AsRecord(t[|t| - 1].(id := "")) else BLANK
  }

  function AsRecord(e: Info): (r: Record) {
    Record(true, e.id, e.pid, e.state, e.createdAt, e.startedAt, e.stoppedAt)
  }

  lemma StepBefore(r: Record, t: seq<Info>, r1: Record, t1: seq<Info>, ls: seq<Line>, i: nat,
                   s: (Record, seq<Info>), p: Probe)
    requires i < |ls| && Step(r, t, ls[i], p) == (r1, t1)
    requires Steps(r1, t1, ls, i + 1, p) == s
    ensures Steps(r, t, ls, i, p) == s
  {
  }

  /** Outside a record the remaining lines of a record change nothing. */
  lemma {:induction false} StepsOutside(t: seq<Info>, ls: seq<Line>, i: nat, p: Probe)
    requires i <= |ls| && forall j :: i <= j < |ls| ==> !ls[j].IdField?
    ensures Steps(BLANK, t, ls, i, p) == (BLANK, t)
    decreases |ls| - i
  {
    if i < |ls| {
      StepsOutside(t, ls, i + 1, p);
    }
  }

  /** The saved record of any entry, kept or not, shows all its fields: so it stands in the
      scanner just before the record closes. */
  lemma RecordShows(r: Record, t: seq<Info>, e: Info, last: bool, p: Probe)
    requires r.id == "" && ('}' !in e.id || Cut(e.id) == "")
    ensures RecordLines(e, last)[..7] + [CloseRecord(last)] == RecordLines(e, last)
    ensures Steps(r, t, RecordLines(e, last)[..7], 0, p) == (AsRecord(e.(id := Cut(e.id))), t)
  {
    hide Cut;
    var ls := RecordLines(e, last)[..7];
    var r2 := Opened(r, e.id);
    var r3 := r2.(pid := e.pid);
    var r4 := r3.(state := e.state);
    var r5 := r4.(createdAt := e.createdAt);
    var r6 := r5.(startedAt := e.startedAt);
    var s := (AsRecord(e.(id := Cut(e.id))), t);
    assert s.0 == r6.(stoppedAt := e.stoppedAt);
    assert Steps(s.0, t, ls, 7, p) == s;
    StepBefore(r6, t, s.0, t, ls, 6, s, p);
    StepBefore(r5, t, r6, t, ls, 5, s, p);
    StepBefore(r4, t, r5, t, ls, 4, s, p);
    StepBefore(r3, t, r4, t, ls, 3, s, p);
    StepBefore(r2, t, r3, t, ls, 2, s, p);
    StepBefore(r, t, r2, t, ls, 1, s, p);
    StepBefore(r, t, r, t, ls, 0, s, p);
  }

  lemma {:induction false} StepsSnoc(r: Record, t: seq<Info>, ls: seq<Line>, l: Line, i: nat, p: Probe)
    requires i <= |ls|
    ensures var (r1, t1) := Steps(r, t, ls, i, p); Steps(r, t, ls + [l], i, p) == Step(r1, t1, l, p)
    decreases |ls| - i
  {
    hide Step;
    if i == |ls| {
      var (r1, t1) := Step(r, t, l, p);
      assert Steps(r1, t1, ls + [l], i + 1, p) == (r1, t1);
    } else {
      var (r1, t1) := Step(r, t, ls[i], p);
      StepsSnoc(r1, t1, ls, l, i + 1, p);
    }
  }

  /** A record that its id line does not close reads all its fields. */
  lemma FieldSteps(r: Record, t: seq<Info>, e: Info, last: bool, p: Probe)
    requires r.id == "" && ('}' !in e.id || Cut(e.id) == "")
    ensures Steps(r, t, RecordLines(e, last), 0, p) == Close(AsRecord(e.(id := Cut(e.id))), t, p)
  {
    hide Cut, Close, Steps;
    RecordShows(r, t, e, last, p);
    StepsSnoc(r, t, RecordLines(e, last)[..7], CloseRecord(last), 0, p);
  }

  /** A record whose id line closes it commits there and ignores the rest. */
  lemma EarlyClose(r: Record, t: seq<Info>, e: Info, last: bool, p: Probe)
    requires '}' in e.id && Cut(e.id) != ""
    ensures Steps(r, t, RecordLines(e, last), 0, p) == (BLANK, Commit(t, Opened(r, e.id), p))
  {
    hide Commit, Cut;
    var ls := RecordLines(e, last);
    var s := Step(r, t, ls[1], p);
    StepsOutside(s.1, ls, 2, p);
    StepBefore(r, t, BLANK, s.1, ls, 1, s, p);
    StepBefore(r, t, r, t, ls, 0, s, p);
  }

  /** Scanning one more printed record commits exactly the entry that it shows. */
  lemma ScanRecord(t: seq<Info>, i: nat, last: bool, rest: string, p: Probe)
    requires i < |t| && OneLine(t[i].id)
    ensures ScanText(Pending(t[..i]), Restored(SeenAll(t[..i]), p), Join(RecordLines(t[i], last)) + rest, p)
         == ScanText(Pending(t[..i + 1]), Restored(SeenAll(t[..i + 1]), p), rest, p)
  {
    hide ScanText, Join, Restored, SeenAll, Pending, Steps, RecordLines, Printable, OneLine;
    RecordPrintable(t[i], last);
    RecordSteps(t, i, last, p);
    ScanJoined(Pending(t[..i]), Restored(SeenAll(t[..i]), p), RecordLines(t[i], last), 0, rest, p);
  }

  lemma RecordPrintable(e: Info, last: bool)
    requires OneLine(e.id)
    ensures forall l <- RecordLines(e, last) :: Printable(l)
  {
    hide OneLine;
  }

  lemma RecordSteps(t: seq<Info>, i: nat, last: bool, p: Probe)
    requires i < |t|
    ensures Steps(Pending(t[..i]), Restored(SeenAll(t[..i]), p), RecordLines(t[i], last), 0, p)
         == (Pending(t[..i + 1]), Restored(SeenAll(t[..i + 1]), p))
  {
    hide Cut, Restored, Steps, Commit;
    var r, e, seen := Pending(t[..i]), t[i], SeenAll(t[..i]);
    SeenSnoc(t, i);
    if '}' in e.id && Cut(e.id) != "" {
      EarlyClose(r, Restored(seen, p), e, last, p);
    } else {
      FieldSteps(r, Restored(seen, p), e, last, p);
    }
    RestoredAppend(seen, Seen(t, i), p);
  }

  lemma SeenSnoc(t: seq<Info>, i: nat)
    requires i < |t|
    ensures SeenAll(t[..i + 1]) == SeenAll(t[..i]) + (if Cut(t[i].id) == "" then [] else [Seen(t, i)])
  {
    hide Cut;
    var t1 := t[..i + 1];
    assert t1[..i] == t[..i] && t1[i] == t[i];
    assert i > 0 ==> t1[i - 1] == t[i - 1];
    assert Seen(t1, i) == Seen(t, i);
  }

  lemma ScanNothing(r: Record, t: seq<Info>, p: Probe)
    ensures ScanText(r, t, "", p) == t
  {
  }

  lemma ScanEnd(t: seq<Info>, p: Probe)
    ensures ScanText(Pending(t), Restored(SeenAll(t), p), Join([CloseList, CloseFile]), p) == Restored(SeenAll(t), p)
  {
    hide Cut, Restored, ScanText, SeenAll;
    var ls := [CloseList, CloseFile];
    var r, done := Pending(t), Restored(SeenAll(t), p);
    ScanJoined(r, done, ls, 0, "", p);
    assert Join(ls) + "" == Join(ls);
    assert Steps(r, done, ls, 2, p) == (r, done);
    StepBefore(r, done, r, done, ls, 1, (r, done), p);
    StepBefore(r, done, r, done, ls, 0, (r, done), p);
    ScanNothing(r, done, p);
  }

  lemma {:induction false} ScanFrom(t: seq<Info>, i: nat, p: Probe)
    requires i <= |t| && OneLineIds(t)
    ensures ScanText(Pending(t[..i]), Restored(SeenAll(t[..i]), p), PrintFrom(t, i), p) == Restored(SeenAll(t), p)
    decreases |t| - i
  {
    hide Restored, SeenAll, Pending, Join, ScanText, OneLine;
    if i == |t| {
      assert t[..i] == t;
      ScanEnd(t, p);
    } else {
      assert t[i] in t;
      ScanRecord(t, i, i == |t| - 1, PrintFrom(t, i + 1), p);
      ScanFrom(t, i + 1, p);
    }
  }

  lemma RestoredAppend(t: seq<Info>, e: Info, p: Probe)
    ensures Restored(t + [e], p) == Commit(Restored(t, p), AsRecord(e), p)
    ensures t + [] == t
  {
    assert (t + [e])[..|t|] == t;
  }

  /** What loading makes of any saved table whose ids fit on a line. */
  lemma LoadOfSaveSeen(t: seq<Info>, p: Probe)
    requires OneLineIds(t)
    ensures LoadState(Some(PrintState(t)), p) == Restored(SeenAll(t), p)
  {
    var ls := [OpenFile, Containers];
    ScanJoined(BLANK, [], ls, 0, PrintFrom(t, 0), p);
    StepsOutside([], ls, 0, p);
    assert t[..0] == [];
    ScanFrom(t, 0, p);
  }

  lemma {:induction false} SeenSafe(t: seq<Info>, n: nat)
    requires SafeIds(t) && n <= |t|
    ensures SeenAll(t[..n]) == t[..n]
  {
    hide Cut, SafeId, Seen, SeenAll;
    if n == 0 {
      NothingSeen();
    } else {
      SeenSafe(t, n - 1);
      SeenSnoc(t, n - 1);
      SafeIsSeen(t, n - 1) by { assert t[n - 1] in t; }
      assert t[..n] == t[..n - 1] + [t[n - 1]];
    }
  }

  lemma SafeIsSeen(t: seq<Info>, i: nat)
    requires i < |t| && SafeId(t[i].id)
    ensures Cut(t[i].id) == t[i].id != "" && Seen(t, i) == t[i]
  {
    hide Cut;
    CutWholeIff(t[i].id);
  }

  /** Loading what was saved returns the kept entries, in order and with all six
      fields, renaming only those whose id is not a positive decimal. */
  lemma LoadOfSave(t: seq<Info>, p: Probe)
    requires SafeIds(t)
    ensures LoadState(Some(PrintState(t)), p) == Restored(t, p)
  {
    hide PrintState, LoadState, Restored, SeenAll;
    LoadOfSaveSeen(t, p);
    SeenSafe(t, |t|);
    assert t[..|t|] == t;
  }

  /** A saved table loads as what its front loads as, and what follows. */
  lemma {:induction false} RestoredPrefix(t: seq<Info>, n: nat, p: Probe)
    requires n <= |t|
    ensures Restored(SeenAll(t[..n]), p) <= Restored(SeenAll(t), p)
    decreases |t| - n
  {
    hide Seen, Commit, Cut;
    if n == |t| {
      assert t[..n] == t;
    } else {
      SeenSnoc(t, n);
      RestoredAppend(SeenAll(t[..n]), Seen(t, n), p);
      CommitLength(Restored(SeenAll(t[..n]), p), AsRecord(Seen(t, n)), p);
      RestoredPrefix(t, n + 1, p);
    }
  }

  /** A brace in an id that is read at all turns its container, even a stopped one, into a
      CREATED entry with no history, unless nothing was read of the id before it. */
  lemma BraceIdComesBack(t: seq<Info>, i: nat, p: Probe)
    requires OneLineIds(t) && i < |t| && '}' in t[i].id && Cut(t[i].id) != ""
    requires i == 0 || Cut(t[i - 1].id) != ""
    ensures var front := LoadState(Some(PrintState(t[..i])), p);
      front + [Info(LoadedId(front, Cut(t[i].id)), 0, CREATED, 0, 0, 0, None)] <= LoadState(Some(PrintState(t)), p)
  {
    hide PrintState, LoadState, Cut, LoadedId, OneLine, SeenAll, Restored;
    assert forall e <- t[..i] :: e in t;
    LoadOfSaveSeen(t, p);
    LoadOfSaveSeen(t[..i], p);
    SeenSnoc(t, i);
    RestoredAppend(SeenAll(t[..i]), Seen(t, i), p);
    RestoredPrefix(t, i + 1, p);
  }

  // ------------------------------------------------------- ids across a load

  /** Every kept entry already has a positive decimal id. */
  ghost predicate KeptNumeric(t: seq<Info>, p: Probe) {
    forall e <- t :: KeepsEntry(e, p) ==> NumericId(e.id) >= 0
  }

  lemma {:induction false} RestoredNumeric(t: seq<Info>, p: Probe)
    requires KeptNumeric(t, p)
    ensures Restored(t, p) == Kept(t, p)
  {
    if t != [] {
      assert forall e <- t[..|t| - 1] :: e in t;
      RestoredNumeric(t[..|t| - 1], p);
    }
  }

  lemma {:induction false} MaxIdPrefix(t: seq<Info>, n: nat)
    requires n <= |t|
    ensures MaxId(t[..n]) <= MaxId(t)
  {
    if n < |t| {
      MaxIdPrefix(t[..|t| - 1], n);
      assert t[..|t| - 1][..n] == t[..n];
    } else {
      assert t[..n] == t;
    }
  }

  /** A kept entry whose id is not a positive decimal loads under another id. */
  lemma RenamedLast(t: seq<Info>, p: Probe)
    requires t != [] && KeepsEntry(t[|t| - 1], p) && NumericId(t[|t| - 1].id) < 0
    requires MaxId(Restored(t[..|t| - 1], p)) < INT_MAX
    ensures Restored(t, p)[|Restored(t, p)| - 1].id != t[|t| - 1].id
  {
    hide NumericId, NextId, MaxId, Keeps;
    NextIdFresh(Restored(t[..|t| - 1], p));
  }

  /** The kept entries load back unchanged exactly when all their ids are positive decimals. */
  lemma {:induction false} RestoredIsKeptIff(t: seq<Info>, p: Probe)
    requires MaxId(Kept(t, p)) < INT_MAX
    ensures Restored(t, p) == Kept(t, p) <==> KeptNumeric(t, p)
  {
    if KeptNumeric(t, p) {
      RestoredNumeric(t, p);
    } else {
      var t0 := t[..|t| - 1];
      var k0, r0 := Kept(t0, p), Restored(t0, p);
      assert Kept(t, p)[..|k0|] == k0;
      assert Restored(t, p)[..|r0|] == r0;
      SameLength(t0, p);
      MaxIdPrefix(Kept(t, p), |k0|);
      RestoredIsKeptIff(t0, p);
      if r0 == k0 {
        RenamedLast(t, p);
      }
    }
  }

  lemma {:induction false} SameLength(t: seq<Info>, p: Probe)
    ensures |Restored(t, p)| == |Kept(t, p)|
  {
    if t != [] {
      SameLength(t[..|t| - 1], p);
    }
  }

  // ------------------------------------------------------ the exact round trip

  /** A positive decimal holds nothing but blanks, a sign and digits. */
  lemma OddIsNoNumber(id: string, c: char)
    requires c in id && !IsSpace(c) && !IsDigit(c) && c != '-' && c != '+'
    ensures NumericId(id) == -1
  {
    hide SkipSpace, Digits, Value, Saturate;
    if Strtol(id).1 == "" {
      NumberChars(id);
    }
  }

  /** An id that is read whole and does not close its record. */
  predicate WholeId(id: string) { 0 < |id| <= MAX_SCANNED_ID && '"' !in id && '}' !in id }

  lemma NumericIsWhole(id: string)
    requires NumericId(id) >= 0 && |id| <= MAX_SCANNED_ID
    ensures WholeId(id)
  {
    hide Strtol;
    if c :| c in id && (c == '"' || c == '}') {
      OddIsNoNumber(id, c);
    }
    EmptyIsNoNumber();
  }

  lemma EmptyIsNoNumber()
    ensures NumericId("") == -1
  {
  }

  /** Every loaded id could be saved and read again. */
  lemma {:induction false} RestoredWhole(t: seq<Info>, p: Probe)
    ensures forall e <- Restored(SeenAll(t), p) :: WholeId(e.id)
  {
    hide Keeps, Cut, WholeId, LoadedId, SeenAll, Restored;
    if t != [] {
      var n := |t| - 1;
      RestoredWhole(t[..n], p);
      assert t[..n + 1] == t;
      SeenSnoc(t, n);
      var front := SeenAll(t[..n]);
      RestoredAppend(front, Seen(t, n), p);
      LoadedWhole(Restored(front, p), t[n].id);
    } else {
      NothingSeen();
      NothingRestored(p);
    }
  }

  lemma NothingSeen()
    ensures SeenAll([]) == []
  {
  }

  lemma NothingRestored(p: Probe)
    ensures Restored([], p) == []
  {
  }

  lemma LoadedWhole(t: seq<Info>, id: string)
    ensures WholeId(LoadedId(t, Cut(id)))
  {
    hide NumericId, Cut, MaxId;
    CutWholeIff(id);
    if NumericId(Cut(id)) >= 0 {
      NumericIsWhole(Cut(id));
    }
    LongPrintsShort(Wrap32(MaxId(t) + 1));
  }

  ghost predicate KeptWhole(t: seq<Info>, p: Probe) { forall e <- t :: KeepsEntry(e, p) ==> WholeId(e.id) }

  /** An entry that was not to be kept and comes back with blank fields, as CREATED. */
  ghost predicate Revived(t: seq<Info>, i: nat, p: Probe) {
    i < |t| && !KeepsEntry(t[i], p) && Cut(t[i].id) != "" && FieldsFrom(t, i).None?
  }

  lemma SeenKeeps(t: seq<Info>, i: nat, p: Probe)
    requires i < |t| && KeptWhole(t, p)
    ensures KeepsEntry(t[i], p) ==> Cut(t[i].id) != "" && Seen(t, i) == t[i]
    ensures !KeepsEntry(t[i], p) && Cut(t[i].id) != "" ==> (KeepsEntry(Seen(t, i), p) <==> Revived(t, i, p))
  {
    hide Cut;
    assert t[i] in t;
    CutWholeIff(t[i].id);
    if i > 0 {
      assert t[i - 1] in t;
      CutWholeIff(t[i - 1].id);
    }
  }

  ghost predicate NoneRevived(t: seq<Info>, p: Probe) { !exists i: nat :: Revived(t, i, p) }

  lemma NoneRevivedSnoc(t: seq<Info>, p: Probe)
    requires t != []
    ensures NoneRevived(t, p) <==> NoneRevived(t[..|t| - 1], p) && !Revived(t, |t| - 1, p)
  {
    hide Revived;
    var n := |t| - 1;
    forall i: nat
      ensures i < n ==> (Revived(t[..n], i, p) <==> Revived(t, i, p))
      ensures i >= n ==> !Revived(t[..n], i, p)
      ensures i > n ==> !Revived(t, i, p)
    {
      RevivedPrefix(t, n, i, p);
    }
  }

  lemma RevivedPrefix(t: seq<Info>, n: nat, i: nat, p: Probe)
    requires n == |t| - 1
    ensures if i < n then (Revived(t[..n], i, p) <==> Revived(t, i, p)) else !Revived(t[..n], i, p)
    ensures i > n ==> !Revived(t, i, p)
  {
    hide Cut, KeepsEntry;
    if i < n {
      assert t[..n][i] == t[i];
      assert i > 0 ==> t[..n][i - 1] == t[i - 1];
    }
  }

  /** With the kept ids read whole, the scanner keeps what was to be kept and what it revives. */
  lemma {:induction false} SeenKept(t: seq<Info>, p: Probe)
    requires KeptWhole(t, p)
    ensures |Kept(t, p)| <= |Kept(SeenAll(t), p)|
    ensures |Kept(t, p)| == |Kept(SeenAll(t), p)| <==> NoneRevived(t, p)
    ensures |Kept(t, p)| == |Kept(SeenAll(t), p)| ==> Kept(t, p) == Kept(SeenAll(t), p)
  {
    hide KeepsEntry, Cut, WholeId, Revived, Seen, SeenAll, NoneRevived;
    if t == [] {
      NothingSeen();
      assert NoneRevived(t, p) by { NothingRevived(p); }
    } else {
      var n := |t| - 1;
      assert forall e <- t[..n] :: e in t;
      SeenKept(t[..n], p);
      SeenKeeps(t, n, p);
      NoneRevivedSnoc(t, p);
      RevivedNotKept(t, n, p);
      assert t[..n + 1] == t;
      SeenSnoc(t, n);
      KeptAppend(SeenAll(t[..n]), Seen(t, n), p);
    }
  }

  lemma NothingRevived(p: Probe)
    ensures NoneRevived([], p)
  {
  }

  lemma RevivedNotKept(t: seq<Info>, i: nat, p: Probe)
    requires i < |t|
    ensures Revived(t, i, p) ==> !KeepsEntry(t[i], p) && Cut(t[i].id) != ""
  {
  }

  lemma KeptAppend(t: seq<Info>, e: Info, p: Probe)
    ensures Kept(t + [e], p) == Kept(t, p) + (if KeepsEntry(e, p) then [Forget(e)] else [])
    ensures t + [] == t
  {
    assert (t + [e])[..|t|] == t;
  }

  /** A kept entry shows up among the kept ones. */
  lemma {:induction false} KeptShows(t: seq<Info>, p: Probe, i: nat)
    requires i < |t| && KeepsEntry(t[i], p)
    ensures exists k :: 0 <= k < |Kept(t, p)| && Kept(t, p)[k] == Forget(t[i])
  {
    hide KeepsEntry;
    var n := |t| - 1;
    var k0 := Kept(t[..n], p);
    if i < n {
      KeptShows(t[..n], p, i);
      var k :| 0 <= k < |k0| && k0[k] == Forget(t[i]);
      assert Kept(t, p)[k] == Forget(t[i]);
    } else {
      assert Kept(t, p)[|k0|] == Forget(t[n]);
    }
  }

  lemma {:induction false} KeptElement(t: seq<Info>, p: Probe, k: nat)
    requires k < |Kept(t, p)|
    ensures exists i :: 0 <= i < |t| && Kept(t, p)[k] == Forget(t[i]) && KeepsEntry(t[i], p)
  {
    var t0 := t[..|t| - 1];
    if k < |Kept(t0, p)| {
      KeptElement(t0, p, k);
      var i :| 0 <= i < |t0| && Kept(t0, p)[k] == Forget(t0[i]) && KeepsEntry(t0[i], p);
      assert t[i] == t0[i];
    }
  }

  lemma SameKeptNumeric(t: seq<Info>, u: seq<Info>, p: Probe)
    requires Kept(t, p) == Kept(u, p) && KeptNumeric(t, p)
    ensures KeptNumeric(u, p)
  {
    hide NumericId, KeepsEntry, Kept;
    forall j | 0 <= j < |u| && KeepsEntry(u[j], p)
      ensures NumericId(u[j].id) >= 0
    {
      KeptShows(u, p, j);
      var k :| 0 <= k < |Kept(u, p)| && Kept(u, p)[k] == Forget(u[j]);
      KeptElement(t, p, k);
    }
  }

  lemma KeptAreWhole(t: seq<Info>, p: Probe)
    requires forall e <- Kept(t, p) :: WholeId(e.id)
    ensures KeptWhole(t, p)
  {
    hide WholeId, KeepsEntry, Kept;
    forall i | 0 <= i < |t| && KeepsEntry(t[i], p)
      ensures WholeId(t[i].id)
    {
      KeptShows(t, p, i);
    }
  }

  /** Every kept id is a positive decimal short enough to be read whole, and no entry that
      was not to be kept comes back. */
  ghost predicate LoadsUnchanged(t: seq<Info>, p: Probe) {
    && KeptNumeric(t, p)
    && (forall e <- t :: KeepsEntry(e, p) ==> |e.id| <= MAX_SCANNED_ID)
    && NoneRevived(t, p)
  }

  /** A saved table whose ids fit on a line loads back as its kept entries exactly when
      every kept id is a positive decimal read whole and no brace revives another entry. */
  lemma LoadIsKeptIff(t: seq<Info>, p: Probe)
    requires OneLineIds(t) && MaxId(Kept(t, p)) < INT_MAX
    ensures LoadState(Some(PrintState(t)), p) == Kept(t, p) <==> LoadsUnchanged(t, p)
  {
    hide LoadState, PrintState, Restored, Kept, KeepsEntry, NumericId, MaxId, SeenAll, NoneRevived, KeptNumeric;
    var seen := SeenAll(t);
    LoadOfSaveSeen(t, p);
    if LoadsUnchanged(t, p) {
      UnchangedWhole(t, p);
      SeenKept(t, p);
      SameKeptNumeric(t, seen, p);
      RestoredNumeric(seen, p);
    } else if Restored(seen, p) == Kept(t, p) {
      RestoredWhole(t, p);
      KeptAreWhole(t, p);
      SameLength(seen, p);
      SeenKept(t, p);
      RestoredIsKeptIff(seen, p);
      SameKeptNumeric(seen, t, p);
    }
  }

  lemma UnchangedWhole(t: seq<Info>, p: Probe)
    requires LoadsUnchanged(t, p)
    ensures KeptWhole(t, p)
  {
    hide KeepsEntry, NumericId, WholeId, NoneRevived;
    forall e <- t | KeepsEntry(e, p)
      ensures WholeId(e.id)
    {
      NumericIsWhole(e.id);
    }
  }

  // ------------------------------------------------- distinct ids after a load

  /** The id entry `i` loads under. */
  function IdAfterLoad(t: seq<Info>, i: nat, p: Probe): (id: string)
    requires i < |t|
  {
    LoadedId(Restored(t[..i], p), t[i].id)
  }

  /** The loader's running number, read off the saved ids alone: a kept positive decimal
      raises it, any other kept id adds one. */
  function Counter(t: seq<Info>, p: Probe): (n: nat) {
    if t == [] then 0
    else
      var c, e := Counter(t[..|t| - 1], p), t[|t| - 1];
      if !KeepsEntry(e, p) then c
      else if NumericId(e.id) < 0 then c + 1
      else if NumericId(e.id) > c then NumericId(e.id) else c
  }

  /** The id a kept entry loads under, read off the saved ids alone. */
  function NameAfter(t: seq<Info>, i: nat, p: Probe): (id: string)
    requires i < |t|
  {
    if NumericId(t[i].id) < 0 then PrintInt(Counter(t[..i], p) + 1) else t[i].id
  }

  /** A kept positive decimal that an earlier kept entry loads under too. */
  ghost predicate Clash(t: seq<Info>, i: nat, j: nat, p: Probe) {
    && i < j < |t| && KeepsEntry(t[i], p) && KeepsEntry(t[j], p)
    && NumericId(t[j].id) >= 0 && t[j].id == NameAfter(t, i, p)
  }

  lemma {:induction false} CounterPrefix(t: seq<Info>, n: nat, p: Probe)
    requires n <= |t|
    ensures Counter(t[..n], p) <= Counter(t, p)
  {
    hide KeepsEntry, NumericId;
    if n < |t| {
      CounterPrefix(t[..|t| - 1], n, p);
      assert t[..|t| - 1][..n] == t[..n];
    } else {
      assert t[..n] == t;
    }
  }

  /** Below the `int` limit the running number is the largest loaded id. */
  lemma {:induction false} CounterIsMaxId(t: seq<Info>, p: Probe)
    requires Counter(t, p) <= INT_MAX
    ensures MaxId(Restored(t, p)) == Counter(t, p)
  {
    hide KeepsEntry, NumericId;
    if t != [] {
      var n := |t| - 1;
      var r0 := Restored(t[..n], p);
      CounterPrefix(t, n, p);
      CounterIsMaxId(t[..n], p);
      if KeepsEntry(t[n], p) {
        var e := Forget(t[n]).(id := LoadedId(r0, t[n].id));
        assert Restored(t, p) == r0 + [e] && (r0 + [e])[..|r0|] == r0;
        if NumericId(t[n].id) < 0 {
          NextIdFresh(r0);
        }
      }
    }
  }

  lemma IdAfterLoadPrefix(t: seq<Info>, n: nat, i: nat, p: Probe)
    requires i < n <= |t|
    ensures IdAfterLoad(t[..n], i, p) == IdAfterLoad(t, i, p)
  {
    hide Restored, LoadedId;
    assert t[..n][..i] == t[..i];
  }

  /** The loaded ids are those of the kept entries. */
  lemma {:induction false} RestoredIds(t: seq<Info>, p: Probe, id: string)
    ensures id in Ids(Restored(t, p)) <==> exists i :: 0 <= i < |t| && KeepsEntry(t[i], p) && IdAfterLoad(t, i, p) == id
  {
    hide LoadedId, KeepsEntry;
    if t != [] {
      var n := |t| - 1;
      var r0 := Restored(t[..n], p);
      RestoredIds(t[..n], p, id);
      forall i | 0 <= i < n
        ensures IdAfterLoad(t[..n], i, p) == IdAfterLoad(t, i, p)
      {
        IdAfterLoadPrefix(t, n, i, p);
      }
      IdsOfAppend(r0, Forget(t[n]).(id := LoadedId(r0, t[n].id)));
    }
  }

  lemma IdsOfAppend(t: seq<Info>, e: Info)
    ensures Ids(t + [e]) == Ids(t) + {e.id}
  {
  }

  lemma UniqueAppendIff(t: seq<Info>, e: Info)
    ensures UniqueIds(t + [e]) <==> UniqueIds(t) && e.id !in Ids(t)
  {
    var u := t + [e];
    if UniqueIds(u) {
      forall i | 0 <= i < |t|
        ensures t[i].id != e.id
      {
        assert u[i].id != u[|t|].id;
      }
      assert forall i, j :: 0 <= i < j < |t| ==> u[i] == t[i] && u[j] == t[j];
    }
  }

  /** The name a kept entry gets, always a positive decimal. */
  lemma LoadsNumeric(t: seq<Info>, i: nat, p: Probe)
    requires i < |t| && KeepsEntry(t[i], p) && Counter(t, p) <= INT_MAX
    ensures IdAfterLoad(t, i, p) == NameAfter(t, i, p) && NumericId(IdAfterLoad(t, i, p)) >= 0
    ensures NumericId(t[i].id) < 0 ==> MaxId(Restored(t[..i], p)) < INT_MAX
  {
    hide KeepsEntry, NumericId, Restored, MaxId;
    if NumericId(t[i].id) < 0 {
      CounterPrefix(t, i + 1, p);
      assert t[..i + 1][..i] == t[..i];
      CounterIsMaxId(t[..i], p);
      NextIdFresh(Restored(t[..i], p));
    }
  }

  /** Whether the last entry's loaded id is taken. */
  lemma LastIdTakenIff(t: seq<Info>, n: nat, p: Probe)
    requires |t| == n + 1 && KeepsEntry(t[n], p) && Counter(t, p) <= INT_MAX
    ensures IdAfterLoad(t, n, p) in Ids(Restored(t[..n], p)) <==> exists i: nat :: Clash(t, i, n, p)
  {
    hide Restored, KeepsEntry, NextId, NumericId, Counter, MaxId, NameAfter;
    var t0 := t[..n];
    RestoredIds(t0, p, t[n].id);
    if NumericId(t[n].id) < 0 {
      LoadsNumeric(t, n, p);
      NextIdFresh(Restored(t0, p));
    } else {
      forall i: nat | i < n && KeepsEntry(t[i], p)
        ensures t0[i] == t[i] && IdAfterLoad(t0, i, p) == NameAfter(t, i, p)
      {
        IdAfterLoadPrefix(t, n, i, p);
        LoadsNumeric(t, i, p);
      }
      if i :| 0 <= i < n && KeepsEntry(t0[i], p) && IdAfterLoad(t0, i, p) == t[n].id {
        assert t0[i] == t[i];
        assert Clash(t, i, n, p);
      }
    }
  }

  lemma ClashPrefix(t: seq<Info>, n: nat, i: nat, j: nat, p: Probe)
    requires n <= |t| && j < n
    ensures Clash(t[..n], i, j, p) <==> Clash(t, i, j, p)
  {
    hide Counter, NumericId, KeepsEntry;
    if i < j {
      assert t[..n][..i] == t[..i] && t[..n][i] == t[i] && t[..n][j] == t[j];
    }
  }

  lemma {:induction false} RestoredUniqueIff(t: seq<Info>, p: Probe)
    requires Counter(t, p) <= INT_MAX
    ensures UniqueIds(Restored(t, p)) <==> !exists i, j :: Clash(t, i, j, p)
  {
    hide KeepsEntry, NextId, NumericId, LoadedId, MaxId, Counter, NameAfter;
    if t != [] {
      var n := |t| - 1;
      var r0 := Restored(t[..n], p);
      CounterPrefix(t, n, p);
      RestoredUniqueIff(t[..n], p);
      forall i: nat, j: nat | j < n
        ensures Clash(t[..n], i, j, p) <==> Clash(t, i, j, p)
      {
        ClashPrefix(t, n, i, j, p);
      }
      if KeepsEntry(t[n], p) {
        LastIdTakenIff(t, n, p);
        UniqueAppendIff(r0, Forget(t[n]).(id := IdAfterLoad(t, n, p)));
      }
    }
  }

  /** The ids loaded from a saved table are distinct exactly when, among the entries the
      scanner sees, no kept positive decimal is a name that an earlier kept entry gets. */
  lemma LoadUniqueIff(t: seq<Info>, p: Probe)
    requires OneLineIds(t) && Counter(SeenAll(t), p) <= INT_MAX
    ensures UniqueIds(LoadState(Some(PrintState(t)), p)) <==> !exists i, j :: Clash(SeenAll(t), i, j, p)
  {
    hide LoadState, PrintState, SeenAll, Counter, Clash, Restored;
    LoadOfSaveSeen(t, p);
    RestoredUniqueIff(SeenAll(t), p);
  }

  /** In particular when the scanner sees distinct ids and the kept positive decimals first. */
  lemma NumericFirstUnique(t: seq<Info>, p: Probe)
    requires OneLineIds(t) && UniqueIds(SeenAll(t)) && Counter(SeenAll(t), p) <= INT_MAX
    requires var seen := SeenAll(t);
      forall i, j :: 0 <= i < j < |seen| && KeepsEntry(seen[i], p) && KeepsEntry(seen[j], p) ==>
        NumericId(seen[i].id) < 0 ==> NumericId(seen[j].id) < 0
    ensures UniqueIds(LoadState(Some(PrintState(t)), p))
  {
    hide KeepsEntry, NumericId, LoadState, PrintState, SeenAll, Counter;
    LoadUniqueIff(t, p);
  }

  /** The largest loaded id is a count over the entries the scanner sees. */
  lemma LoadCounter(t: seq<Info>, p: Probe)
    requires OneLineIds(t) && Counter(SeenAll(t), p) <= INT_MAX
    ensures MaxId(LoadState(Some(PrintState(t)), p)) == Counter(SeenAll(t), p)
  {
    hide LoadState, PrintState, SeenAll, Counter, Restored, MaxId;
    LoadOfSaveSeen(t, p);
    CounterIsMaxId(SeenAll(t), p);
  }

  // --------------------------------------------------------- kept entries

  lemma {:induction false} KeptIds(t: seq<Info>, p: Probe)
    ensures forall e <- Kept(t, p) :: e.id in Ids(t)
  {
    if t != [] {
      KeptIds(t[..|t| - 1], p);
    }
  }

  lemma UniqueAppend(t: seq<Info>, e: Info)
    requires UniqueIds(t) && e.id !in Ids(t)
    ensures UniqueIds(t + [e])
  {
  }
}
