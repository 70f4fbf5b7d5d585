/** The quoted-command tokenizer of the interactive menu. */
module Tokenizer {
  import opened CText

  /** The scanner between two characters: the character before, the open quote if any,
      the argument being built and the arguments done. */
  datatype Scan = Scan(prev: Option<char>, quote: Option<char>, current: string, args: seq<string>)

  const START := Scan(None, None, "", [])

  predicate IsQuote(c: char) { c == '"' || c == '\'' }

  function Push(args: seq<string>, arg: string): (r: seq<string>) {
    if arg == "" then args else args + [arg]
  }

  /** A quote not behind a backslash opens, closes, or is text inside the other quote;
      a space outside quotes ends the argument. */
  function Step(s: Scan, c: char): (r: Scan) {
    var s1 := s.(prev := Some(c));
    if IsQuote(c) && s.prev != Some('\\') then
      if s.quote.None? then s1.(quote := Some(c))
      else if s.quote == Some(c) then s1.(quote := None)
      else s1.(current := s.current + [c])
    else if c == ' ' && s.quote.None? then s1.(args := Push(s.args, s.current), current := "")
    else s1.(current := s.current + [c])
  }

  function ScanAll(s: Scan, text: string): (r: Scan)
    decreases |text|
  {
    if text == "" then s else ScanAll(Step(s, text[0]), text[1..])
  }

  function Tokens(cmd: string): (args: seq<string>) {
    var s := ScanAll(START, cmd);
    Push(s.args, s.current)
  }

  /** The scanner as the program runs it, over its own variables. */
  method Tokenize(cmd: string) returns (args: seq<string>)
    ensures args == Tokens(cmd)
    ensures forall a <- args :: a != ""
  {
    args := [];
    var inQuotes, quoteChar, current := false, '\0', "";
    var i := 0;
    while i < |cmd|
      invariant 0 <= i <= |cmd|
      invariant forall a <- args :: a != ""
      invariant ScanAll(START, cmd) == ScanAll(
        Scan(if i == 0 then None else Some(cmd[i - 1]), if inQuotes then Some(quoteChar) else None, current, args),
        cmd[i..])
    {
      var c := cmd[i];
      assert cmd[i..][1..] == cmd[i + 1..];
      if IsQuote(c) && (i == 0 || cmd[i - 1] != '\\') {
        if !inQuotes {
          inQuotes, quoteChar := true, c;
        } else if c == quoteChar {
          inQuotes, quoteChar := false, '\0';
        } else {
          current := current + [c];
        }
      } else if c == ' ' && !inQuotes {
        if current != "" {
          args, current := args + [current], "";
        }
      } else {
        current := current + [c];
      }
      i := i + 1;
    }
    if current != "" {
      args := args + [current];
    }
  }

  // ------------------------------------------------------------ conservation

  function Flatten(args: seq<string>): (s: string) {
    if args == [] then "" else Flatten(args[..|args| - 1]) + args[|args| - 1]
  }

  /** Every character taken so far. */
  function Taken(s: Scan): (r: string) { Flatten(s.args) + s.current }

  lemma FlattenPush(args: seq<string>, arg: string)
    ensures Flatten(Push(args, arg)) == Flatten(args) + arg
  {
  }

  lemma StepTakes(s: Scan, c: char)
    ensures Taken(Step(s, c)) == Taken(s) || Taken(Step(s, c)) == Taken(s) + [c]
  {
  }

  /** The characters of the text that scanning takes. */
  function Added(s: Scan, text: string): (r: string)
    decreases |text|
  {
    if text == "" then ""
    else
      var s1 := Step(s, text[0]);
      (if Taken(s1) == Taken(s) then "" else [text[0]]) + Added(s1, text[1..])
  }

  /** `x` is `y` with some characters left out. */
  predicate Subsequence(x: string, y: string)
    decreases |y|
  {
    || x == ""
    || (y != "" && x[0] == y[0] && Subsequence(x[1..], y[1..]))
    || (y != "" && Subsequence(x, y[1..]))
  }

  /** Scanning adds a subsequence of the text, and adds as many characters as the text
      has only by adding the text itself. */
  lemma {:induction false} ScanTakes(s: Scan, text: string)
    ensures Taken(ScanAll(s, text)) == Taken(s) + Added(s, text)
    ensures Subsequence(Added(s, text), text)
    ensures |Added(s, text)| <= |text| && (|Added(s, text)| == |text| ==> Added(s, text) == text)
    decreases |text|
  {
    hide Taken, Step;
    if text != "" {
      var s1 := Step(s, text[0]);
      StepTakes(s, text[0]);
      ScanTakes(s1, text[1..]);
      if Taken(s1) != Taken(s) {
        assert Added(s, text)[1..] == Added(s1, text[1..]);
      } else {
        assert Added(s, text) == Added(s1, text[1..]);
      }
    }
  }

  /** The tokens, joined, are the command with some characters left out. */
  lemma TokensInOrder(cmd: string)
    ensures Subsequence(Flatten(Tokens(cmd)), cmd)
  {
    hide Subsequence;
    ScanTakes(START, cmd);
    var s := ScanAll(START, cmd);
    FlattenPush(s.args, s.current);
    assert Taken(START) == "";
    assert Taken(s) == Added(START, cmd);
  }

  lemma {:induction false} ScanAppend(s: Scan, a: string, b: string)
    ensures ScanAll(s, a + b) == ScanAll(ScanAll(s, a), b)
    decreases |a|
  {
    if a == "" {
      assert a + b == b;
    } else {
      assert (a + b)[1..] == a[1..] + b;
      ScanAppend(Step(s, a[0]), a[1..], b);
    }
  }

  // -------------------------------------------------------------- round trip

  predicate Escaped(prev: Option<char>, a: string, i: nat)
    requires i < |a|
  {
    if i == 0 then prev == Some('\\') else a[i - 1] == '\\'
  }

  /** A character that ends the word, or opens or closes a quote, in the given context. */
  predicate Acts(quote: Option<char>, prev: Option<char>, a: string, i: nat)
    requires i < |a|
  {
    if IsQuote(a[i]) && !Escaped(prev, a, i) then quote.None? || quote == Some(a[i])
    else a[i] == ' ' && quote.None?
  }

  ghost predicate AllText(quote: Option<char>, prev: Option<char>, a: string) {
    forall i :: 0 <= i < |a| ==> !Acts(quote, prev, a, i)
  }

  function LastChar(prev: Option<char>, a: string): (r: Option<char>) {
    if a == "" then prev else Some(a[|a| - 1])
  }

  /** Text without acting characters is taken as it is. */
  lemma {:induction false} TakenAsText(s: Scan, a: string)
    requires AllText(s.quote, s.prev, a)
    ensures ScanAll(s, a) == s.(prev := LastChar(s.prev, a), current := s.current + a)
    decreases |a|
  {
    if a != "" {
      assert !Acts(s.quote, s.prev, a, 0);
      var s1 := Step(s, a[0]);
      assert s1 == s.(prev := Some(a[0]), current := s.current + [a[0]]);
      forall i | 0 <= i < |a[1..]|
        ensures !Acts(s1.quote, s1.prev, a[1..], i)
      {
        assert !Acts(s.quote, s.prev, a, i + 1);
      }
      TakenAsText(s1, a[1..]);
      assert s.current + [a[0]] + a[1..] == s.current + a;
    }
  }

  /** How a word is written: bare, or between two equal quotes. */
  datatype Style = Bare | Between(q: char)

  function Word(style: Style, a: string): (r: string) {
    match style
    case Bare => a
    case Between(q) => [q] + (a + [q])
  }

  /** An argument the style can carry. */
  ghost predicate Fits(style: Style, a: string) {
    a != "" &&
    match style
    case Bare => AllText(None, None, a)
    case Between(q) => IsQuote(q) && a[|a| - 1] != '\\' && AllText(Some(q), Some(q), a)
  }

  /** The arguments as words separated by spaces. */
  function Render(styles: seq<Style>, args: seq<string>): (r: string)
    requires |styles| == |args|
  {
    if args == [] then ""
    else if |args| == 1 then Word(styles[0], args[0])
    else Word(styles[0], args[0]) + (" " + Render(styles[1..], args[1..]))
  }

  lemma ScanOne(s: Scan, c: char)
    ensures ScanAll(s, [c]) == Step(s, c)
  {
  }

  lemma ScanBetween(s: Scan, q: char, a: string)
    requires s.quote.None? && s.current == "" && s.prev != Some('\\') && IsQuote(q) && AllText(Some(q), Some(q), a)
    ensures ScanAll(s, [q] + (a + [q])) == Step(Scan(LastChar(Some(q), a), Some(q), a, s.args), q)
  {
    ScanAppend(s, [q], a + [q]);
    ScanOne(s, q);
    var s1 := Step(s, q);
    ScanAppend(s1, a, [q]);
    TakenAsText(s1, a);
    ScanOne(ScanAll(s1, a), q);
  }

  lemma ScanWord(s: Scan, style: Style, a: string)
    requires s.quote.None? && s.current == "" && s.prev != Some('\\') && Fits(style, a)
    ensures var r := ScanAll(s, Word(style, a)); r.quote.None? && r.current == a && r.args == s.args
  {
    match style
    case Bare =>
      forall i | 0 <= i < |a|
        ensures !Acts(None, s.prev, a, i)
      {
        assert !Acts(None, None, a, i);
      }
      TakenAsText(s, a);
    case Between(q) => ScanBetween(s, q, a);
  }

  lemma ScanWordAndSpace(s: Scan, style: Style, a: string, rest: string)
    requires s.quote.None? && s.current == "" && s.prev != Some('\\') && Fits(style, a)
    ensures ScanAll(s, Word(style, a) + (" " + rest)) == ScanAll(Scan(Some(' '), None, "", s.args + [a]), rest)
  {
    hide AllText, Word;
    ScanWord(s, style, a);
    var s1 := ScanAll(s, Word(style, a));
    ScanAppend(s, Word(style, a), " " + rest);
    ScanAppend(s1, " ", rest);
    ScanOne(s1, ' ');
  }

  lemma {:induction false} ScanRendered(s: Scan, styles: seq<Style>, args: seq<string>)
    requires s.quote.None? && s.current == "" && s.prev != Some('\\') && |styles| == |args|
    requires forall i :: 0 <= i < |args| ==> Fits(styles[i], args[i])
    ensures var r := ScanAll(s, Render(styles, args)); Push(r.args, r.current) == s.args + args
    decreases |args|
  {
    hide AllText, Word;
    if |args| == 1 {
      ScanWord(s, styles[0], args[0]);
    } else if |args| > 1 {
      ScanWordAndSpace(s, styles[0], args[0], Render(styles[1..], args[1..]));
      ScanRendered(Scan(Some(' '), None, "", s.args + [args[0]]), styles[1..], args[1..]);
      assert s.args + [args[0]] + args[1..] == s.args + args;
    }
  }

  /** Writing a list of arguments, each bare or between single or double quotes, and
      scanning it returns the list. */
  lemma RoundTrip(styles: seq<Style>, args: seq<string>)
    requires |styles| == |args| && forall i :: 0 <= i < |args| ==> Fits(styles[i], args[i])
    ensures Tokens(Render(styles, args)) == args
  {
    ScanRendered(START, styles, args);
  }

  /** The position of the first acting character. */
  lemma {:induction false} FirstActing(quote: Option<char>, prev: Option<char>, a: string) returns (i: nat)
    requires !AllText(quote, prev, a)
    ensures i < |a| && Acts(quote, prev, a, i) && AllText(quote, prev, a[..i])
    decreases |a|
  {
    var j :| 0 <= j < |a| && Acts(quote, prev, a, j);
    if AllText(quote, prev, a[..j]) {
      i := j;
    } else {
      i := FirstActing(quote, prev, a[..j]);
      assert a[..j][..i] == a[..i];
    }
  }

  /** A bare quote inside a quoted word ends it early, so the word does not come back. */
  lemma BareQuoteBreaks(q: char, a: string)
    requires IsQuote(q) && !AllText(Some(q), Some(q), a)
    ensures Tokens(Word(Between(q), a)) != [a]
  {
    var i := FirstActing(Some(q), Some(q), a);
    var u, v := a[..i], a[i + 1..];
    assert a[i] == q && a == u + ([q] + v);
    assert [q] + (a + [q]) == ([q] + (u + [q])) + (v + [q]);
    ScanAppend(START, [q] + (u + [q]), v + [q]);
    ScanBetween(START, q, u);
    assert LastChar(Some(q), u) != Some('\\') by {
      assert !Escaped(Some(q), a, i);
    }
    BareQuoteTail(q, a, u, v, Scan(Some(q), None, u, []));
  }

  /** After the early end, coming back would need every later character, the final
      quote included; but then the first of them is a quote, which is not taken. */
  lemma BareQuoteTail(q: char, a: string, u: string, v: string, s: Scan)
    requires IsQuote(q) && a == u + ([q] + v) && s == Scan(Some(q), None, u, [])
    ensures var r := ScanAll(s, v + [q]); Push(r.args, r.current) != [a]
  {
    var text := v + [q];
    var r := ScanAll(s, text);
    FlattenPush(r.args, r.current);
    if Push(r.args, r.current) == [a] {
      assert Taken(r) == Flatten([a]) == a;
      assert Taken(s) == u;
      ScanTakes(s, text);
      assert |a| == |u| + |text|;
      assert text[0] == (u + text)[|u|] == a[|u|] == q;
      assert Taken(Step(s, q)) == u;
      ScanTakes(Step(s, q), text[1..]);
    }
  }

  /** A quoted word that ends in a backslash takes the closing quote with it. */
  lemma UnclosedWord(q: char, a: string)
    requires IsQuote(q) && AllText(Some(q), Some(q), a) && !Fits(Between(q), a)
    ensures Tokens(Word(Between(q), a)) == if a == "" then [] else [a + [q]]
  {
    ScanBetween(START, q, a);
    var r := Step(Scan(LastChar(Some(q), a), Some(q), a, []), q);
    assert r.args == [] && r.current == if a == "" then "" else a + [q];
  }

  /** One quoted word comes back as itself exactly when it is not empty, does not end in
      a backslash and has every such quote behind a backslash. */
  lemma QuotedWordIff(q: char, a: string)
    requires IsQuote(q)
    ensures Tokens(Word(Between(q), a)) == [a] <==> Fits(Between(q), a)
  {
    if Fits(Between(q), a) {
      RoundTrip([Between(q)], [a]);
    } else if !AllText(Some(q), Some(q), a) {
      BareQuoteBreaks(q, a);
    } else {
      UnclosedWord(q, a);
      assert |[a + [q]][0]| != |[a][0]|;
    }
  }

  // -------------------------------------------------- words made of pieces

  /** A piece of a command: a space between words, bare text, text between two equal quotes,
      or text behind a quote that nothing closes. */
  datatype Piece = Gap | Plain(text: string) | Inside(q: char, text: string) | Unclosed(q: char, text: string)

  function Written(p: Piece): (r: string) {
    match p
    case Gap => " "
    case Plain(a) => a
    case Inside(q, a) => [q] + (a + [q])
    case Unclosed(q, a) => [q] + a
  }

  function WrittenAll(ps: seq<Piece>): (r: string) {
    if ps == [] then "" else Written(ps[0]) + WrittenAll(ps[1..])
  }

  /** A piece that stands as it is behind `prev`: no character in it acts, and a quote that
      opens or closes is not behind a backslash. */
  ghost predicate Stands(prev: Option<char>, p: Piece, last: bool) {
    match p
    case Gap => true
    case Plain(a) => AllText(None, prev, a)
    case Inside(q, a) =>
      IsQuote(q) && prev != Some('\\') && AllText(Some(q), Some(q), a) && LastChar(Some(q), a) != Some('\\')
    case Unclosed(q, a) => last && IsQuote(q) && prev != Some('\\') && AllText(Some(q), Some(q), a)
  }

  ghost predicate AllStand(prev: Option<char>, ps: seq<Piece>)
    decreases |ps|
  {
    ps != [] ==> Stands(prev, ps[0], |ps| == 1) && AllStand(LastChar(prev, Written(ps[0])), ps[1..])
  }

  /** The texts between gaps, each put together from its pieces. */
  function Fields(ps: seq<Piece>): (fs: seq<string>)
    ensures fs != []
  {
    if ps == [] then [""]
    else
      var rest := Fields(ps[1..]);
      if ps[0].Gap? then [""] + rest else [ps[0].text + rest[0]] + rest[1..]
  }

  function NonEmpty(fs: seq<string>): (r: seq<string>) {
    if fs == [] then [] else (if fs[0] == "" then [] else [fs[0]]) + NonEmpty(fs[1..])
  }

  /** One piece in the middle of a word: its text joins the word. */
  lemma ScanPiece(s: Scan, p: Piece)
    requires s.quote.None? && !p.Gap? && !p.Unclosed? && Stands(s.prev, p, false)
    ensures ScanAll(s, Written(p)) == Scan(LastChar(s.prev, Written(p)), None, s.current + p.text, s.args)
  {
    match p
    case Plain(a) => TakenAsText(s, a);
    case Inside(q, a) =>
      ScanOpened(s, q, a);
      var s1 := Scan(LastChar(Some(q), a), Some(q), s.current + a, s.args);
      assert [q] + (a + [q]) == ([q] + a) + [q];
      ScanAppend(s, [q] + a, [q]);
      ScanOne(s1, q);
  }

  lemma ScanOpened(s: Scan, q: char, a: string)
    requires s.quote.None? && IsQuote(q) && s.prev != Some('\\') && AllText(Some(q), Some(q), a)
    ensures ScanAll(s, [q] + a) == Scan(LastChar(Some(q), a), Some(q), s.current + a, s.args)
  {
    ScanAppend(s, [q], a);
    ScanOne(s, q);
    TakenAsText(Step(s, q), a);
  }

  /** The fields with some text before them. */
  function Behind(a: string, fs: seq<string>): (r: seq<string>)
    requires fs != []
  {
    [a + fs[0]] + fs[1..]
  }

  lemma FieldsOfGap(a: string, ps: seq<Piece>)
    requires ps != [] && ps[0].Gap?
    ensures Behind(a, Fields(ps)) == [a] + Behind("", Fields(ps[1..]))
  {
    var fs := Fields(ps[1..]);
    assert Fields(ps) == [""] + fs && a + "" == a && "" + fs[0] == fs[0];
    assert [fs[0]] + fs[1..] == fs;
  }

  lemma FieldsCons(ps: seq<Piece>)
    requires ps != [] && !ps[0].Gap?
    ensures Fields(ps) == [ps[0].text + Fields(ps[1..])[0]] + Fields(ps[1..])[1..]
  {
  }

  lemma FieldsOfText(a: string, ps: seq<Piece>)
    requires ps != [] && !ps[0].Gap?
    ensures Behind(a, Fields(ps)) == Behind(a + ps[0].text, Fields(ps[1..]))
  {
    hide Fields;
    var fs := Fields(ps[1..]);
    FieldsCons(ps);
    assert a + (ps[0].text + fs[0]) == a + ps[0].text + fs[0];
  }

  lemma FieldsOfNothing(a: string)
    ensures Behind(a, Fields([])) == [a]
  {
    assert a + "" == a;
  }

  lemma WrittenCons(ps: seq<Piece>)
    requires ps != []
    ensures WrittenAll(ps) == Written(ps[0]) + WrittenAll(ps[1..])
  {
  }

  lemma WrittenNothing()
    ensures WrittenAll([]) == ""
  {
  }

  lemma StandFirst(prev: Option<char>, ps: seq<Piece>)
    requires ps != [] && AllStand(prev, ps)
    ensures Stands(prev, ps[0], |ps| == 1) && AllStand(LastChar(prev, Written(ps[0])), ps[1..])
    ensures !ps[0].Unclosed? ==> Stands(prev, ps[0], false)
    ensures ps[0].Unclosed? ==> ps == [ps[0]] && ps[1..] == []
  {
  }

  /** What the tokens are when scanning ends here. */
  function Done(s: Scan): (args: seq<string>) { Push(s.args, s.current) }

  lemma DoneIs(args: seq<string>, a: string, fs: seq<string>)
    ensures args + NonEmpty([a] + fs) == Push(args, a) + NonEmpty(fs)
    ensures args + NonEmpty([a]) == Push(args, a)
  {
    NonEmptyOne(a, fs);
    NonEmptyOne(a, []);
    assert [a] + [] == [a];
  }

  lemma {:induction false} ScanPieces(s: Scan, ps: seq<Piece>)
    requires s.quote.None? && AllStand(s.prev, ps)
    ensures Done(ScanAll(s, WrittenAll(ps))) == s.args + NonEmpty(Behind(s.current, Fields(ps)))
    decreases |ps|
  {
    hide Step, Fields, NonEmpty, WrittenAll, AllStand, Behind, ScanAll, Stands, Push;
    if ps == [] {
      WrittenNothing();
      ScanNothing(s);
      FieldsOfNothing(s.current);
      DoneIs(s.args, s.current, []);
    } else {
      var p := ps[0];
      WrittenCons(ps);
      StandFirst(s.prev, ps);
      ScanAppend(s, Written(p), WrittenAll(ps[1..]));
      if p.Gap? {
        ScanGap(s);
        var s1 := Scan(Some(' '), None, "", Push(s.args, s.current));
        ScanPieces(s1, ps[1..]);
        FieldsOfGap(s.current, ps);
        DoneIs(s.args, s.current, Behind("", Fields(ps[1..])));
      } else if p.Unclosed? {
        LastPiece(s, ps);
      } else {
        ScanPiece(s, p);
        ScanPieces(ScanAll(s, Written(p)), ps[1..]);
        FieldsOfText(s.current, ps);
      }
    }
  }

  lemma ScanNothing(s: Scan)
    ensures ScanAll(s, "") == s
  {
  }

  lemma LastPiece(s: Scan, ps: seq<Piece>)
    requires s.quote.None? && |ps| == 1 && ps[0].Unclosed? && Stands(s.prev, ps[0], true)
    ensures Done(ScanAll(s, WrittenAll(ps))) == s.args + NonEmpty(Behind(s.current, Fields(ps)))
  {
    hide ScanAll, Fields, NonEmpty, Behind, Push, AllText;
    assert ps[1..] == [];
    ScanOpened(s, ps[0].q, ps[0].text);
    assert WrittenAll(ps) == [ps[0].q] + ps[0].text;
    FieldsOfText(s.current, ps);
    FieldsOfNothing(s.current + ps[0].text);
    DoneIs(s.args, s.current + ps[0].text, []);
  }

  lemma ScanGap(s: Scan)
    requires s.quote.None?
    ensures ScanAll(s, " ") == Scan(Some(' '), None, "", Push(s.args, s.current))
  {
    ScanOne(s, ' ');
  }

  lemma NonEmptyOne(a: string, fs: seq<string>)
    ensures NonEmpty([a] + fs) == Push([], a) + NonEmpty(fs) && NonEmpty([]) == []
  {
    assert ([a] + fs)[1..] == fs;
  }

  /** A command written in pieces, words side by side with any number of spaces around
      them, scans to the texts of its words, each put together from its pieces. */
  lemma PiecesScan(ps: seq<Piece>)
    requires AllStand(None, ps)
    ensures Tokens(WrittenAll(ps)) == NonEmpty(Fields(ps))
  {
    hide ScanAll, AllStand, Fields;
    ScanPieces(START, ps);
    var fs := Fields(ps);
    assert "" + fs[0] == fs[0] && [fs[0]] + fs[1..] == fs;
  }

  /** Every text can be written in pieces that stand. */
  lemma {:induction false} InPieces(prev: Option<char>, text: string) returns (ps: seq<Piece>)
    ensures AllStand(prev, ps) && WrittenAll(ps) == text
    decreases |text|
  {
    hide AllText, AllStand, WrittenAll, Acts;
    if text == "" {
      ps := [];
      WrittenNothing();
      NothingStands(prev);
    } else {
      var c, rest := text[0], text[1..];
      if !(IsQuote(c) && prev != Some('\\')) {
        var more := InPieces(Some(c), rest);
        if c != ' ' {
          PlainStands(prev, c);
        }
        ps := PutFirst(prev, if c == ' ' then Gap else Plain([c]), more);
      } else if AllText(Some(c), Some(c), rest) {
        ps := [Unclosed(c, rest)];
        UnclosedStands(prev, c, rest);
      } else {
        var i := FirstActing(Some(c), Some(c), rest);
        ActsInside(c, rest, i);
        var more := InPieces(Some(c), rest[i + 1..]);
        assert text == [c] + (rest[..i] + [c]) + rest[i + 1..];
        ps := PutFirst(prev, Inside(c, rest[..i]), more);
      }
    }
  }

  lemma NothingStands(prev: Option<char>)
    ensures AllStand(prev, [])
  {
  }

  lemma UnclosedStands(prev: Option<char>, q: char, a: string)
    requires IsQuote(q) && prev != Some('\\') && AllText(Some(q), Some(q), a)
    ensures AllStand(prev, [Unclosed(q, a)]) && WrittenAll([Unclosed(q, a)]) == [q] + a
  {
    assert [Unclosed(q, a)][1..] == [];
  }

  lemma PutFirst(prev: Option<char>, p: Piece, more: seq<Piece>) returns (ps: seq<Piece>)
    requires Stands(prev, p, false) && AllStand(LastChar(prev, Written(p)), more)
    ensures AllStand(prev, ps) && WrittenAll(ps) == Written(p) + WrittenAll(more)
  {
    ps := [p] + more;
    assert ps[1..] == more;
  }

  lemma ActsInside(q: char, a: string, i: nat)
    requires IsQuote(q) && i < |a| && Acts(Some(q), Some(q), a, i)
    ensures a[i] == q && LastChar(Some(q), a[..i]) != Some('\\')
  {
  }

  lemma PlainStands(prev: Option<char>, c: char)
    requires c != ' ' && !(IsQuote(c) && prev != Some('\\'))
    ensures AllText(None, prev, [c])
  {
  }

  /** So the pieces say what every command scans to. */
  lemma EveryCommandInPieces(cmd: string)
    ensures exists ps :: AllStand(None, ps) && WrittenAll(ps) == cmd && Tokens(cmd) == NonEmpty(Fields(ps))
  {
    var ps := InPieces(None, cmd);
    PiecesScan(ps);
  }

  /** A quote that opens inside a word continues it. */
  lemma QuoteInsideWord(a: string, q: char, b: string)
    requires AllText(None, None, a) && LastChar(None, a) != Some('\\')
    requires IsQuote(q) && AllText(Some(q), Some(q), b) && LastChar(Some(q), b) != Some('\\') && a + b != ""
    ensures Tokens(a + ([q] + (b + [q]))) == [a + b]
  {
    hide AllText, ScanAll;
    var u, v := Plain(a), Inside(q, b);
    var ps := [u, v];
    assert ps[1..] == [v] && [v][1..] == [];
    assert WrittenAll([v]) == Written(v) + "" == Written(v);
    assert WrittenAll(ps) == a + ([q] + (b + [q]));
    assert AllStand(LastChar(None, a), [v]);
    PiecesScan(ps);
    assert Fields([v]) == [b + ""] && b + "" == b;
    assert Fields(ps) == [a + b];
    NonEmptyOne(a + b, []);
  }
}
