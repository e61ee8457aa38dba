/** The command-line tokenizer of TerminalHost: a character automaton, against a grammar of
    plain, escaped and quoted pieces separated by white space. */
module Tokenizer {
  import opened Results

  /** White space as both `trim` and the pattern \s understand it. */
  predicate IsSpace(c: char) {
    var n := c as int;
    || 9 <= n <= 13 || n == 0x20 || n == 0xa0 || n == 0x1680 || 0x2000 <= n <= 0x200a
    || n == 0x2028 || n == 0x2029 || n == 0x202f || n == 0x205f || n == 0x3000 || n == 0xfeff
  }

  function TrimLeft(s: string): (t: string)
    ensures t != "" ==> !IsSpace(t[0])
  {
    if s != "" && IsSpace(s[0]) then TrimLeft(s[1..]) else s
  }

  function TrimRight(s: string): (t: string)
    ensures t <= s && (t != "" ==> !IsSpace(t[|t| - 1]))
  {
    if s != "" && IsSpace(s[|s| - 1]) then TrimRight(s[..|s| - 1]) else s
  }

  function Trim(s: string): string { TrimRight(TrimLeft(s)) }

  // ---------- The automaton ----------

  datatype Lexer = Lexer(tokens: seq<string>, token: string, started: bool, quote: Option<char>, escaping: bool)

  const START := Lexer([], "", false, None, false)

  function Step(l: Lexer, c: char): Lexer {
    if l.escaping then l.(token := l.token + [c], started := true, escaping := false)
    else if c == '\\' && l.quote != Some('\'') then l.(escaping := true, started := true)
    else if l.quote.Some? then
      if c == l.quote.value then l.(quote := None, started := true)
      else l.(token := l.token + [c], started := true)
    else if c == '\'' || c == '"' then l.(quote := Some(c), started := true)
    else if IsSpace(c) then
      if l.started then l.(tokens := l.tokens + [l.token], token := "", started := false) else l
    else l.(token := l.token + [c], started := true)
  }

  function Scan(l: Lexer, s: string): Lexer
    decreases |s|
  {
    if s == "" then l else Scan(Step(l, s[0]), s[1..])
  }

  function Tokens(l: Lexer): seq<string> { if l.started then l.tokens + [l.token] else l.tokens }

  predicate Open(l: Lexer) { l.escaping || l.quote.Some? }

  datatype Error = UnterminatedQuoting

  function Tokenize(line: string): Result<seq<string>, Error> {
    var l := Scan(START, Trim(line));
    if Open(l) then Failure(UnterminatedQuoting) else Success(Tokens(l))
  }

  method SplitTerminalCommandLine(line: string) returns (r: Result<seq<string>, Error>)
    ensures r == Tokenize(line)
  {
    hide IsSpace;
    var tokens: seq<string>, token, tokenStarted := [], "", false;
    var quote: Option<char>, escaping := None, false;
    var trimmed := Trim(line);
    var i := 0;
    assert trimmed[0..] == trimmed;
    while i < |trimmed|
      invariant 0 <= i <= |trimmed|
      invariant Scan(START, trimmed) == Scan(Lexer(tokens, token, tokenStarted, quote, escaping), trimmed[i..])
    {
      var character := trimmed[i];
      assert trimmed[i..][0] == character && trimmed[i..][1..] == trimmed[i + 1..];
      i := i + 1;
      if escaping {
        token, tokenStarted, escaping := token + [character], true, false;
        continue;
      }
      if character == '\\' && quote != Some('\'') {
        escaping, tokenStarted := true, true;
        continue;
      }
      if quote.Some? {
        if character == quote.value {
          quote := None;
        } else {
          token := token + [character];
        }
        tokenStarted := true;
        continue;
      }
      if character == '\'' || character == '"' {
        quote, tokenStarted := Some(character), true;
        continue;
      }
      if IsSpace(character) {
        if tokenStarted {
          tokens, token, tokenStarted := tokens + [token], "", false;
        }
        continue;
      }
      token, tokenStarted := token + [character], true;
    }
    assert trimmed[i..] == "";
    if escaping || quote.Some? { return Failure(UnterminatedQuoting); }
    if tokenStarted { tokens := tokens + [token]; }
    return Success(tokens);
  }

  // ---------- The grammar ----------

  datatype Quoted = Raw(c: char) | Backslashed(c: char)
  datatype Item = Gap(c: char) | Plain(c: char) | Escaped(c: char) | Single(body: string) | Double(parts: seq<Quoted>)

  predicate WellFormed(i: Item) {
    match i
    case Gap(c) => IsSpace(c)
    case Plain(c) => !IsSpace(c) && c != '\\' && c != '\'' && c != '"'
    case Escaped(_) => true
    case Single(body) => '\'' !in body
    case Double(parts) => RawPartsArePlain(parts)
  }

  predicate RawPartsArePlain(parts: seq<Quoted>) {
    forall q <- parts :: q.Raw? ==> q.c != '"' && q.c != '\\'
  }

  ghost predicate AllWellFormed(items: seq<Item>) { forall i <- items :: WellFormed(i) }

  function SpellQuoted(parts: seq<Quoted>): string {
    if parts == [] then ""
    else SpellPart(parts[0]) + SpellQuoted(parts[1..])
  }

  function MeanQuoted(parts: seq<Quoted>): string {
    if parts == [] then "" else [parts[0].c] + MeanQuoted(parts[1..])
  }

  function Spell(i: Item): string {
    match i
    case Gap(c) => [c]
    case Plain(c) => [c]
    case Escaped(c) => ['\\', c]
    case Single(body) => "'" + body + "'"
    case Double(parts) => "\"" + SpellQuoted(parts) + "\""
  }

  function SpellAll(items: seq<Item>): string {
    if items == [] then "" else Spell(items[0]) + SpellAll(items[1..])
  }

  /** The words: maximal runs of pieces between gaps, each the concatenation of its pieces.
      `word` is the word under way, if any. */
  function Words(items: seq<Item>, word: Option<string>): seq<string> {
    if items == [] then (if word.Some? then [word.value] else [])
    else if items[0].Gap? then (if word.Some? then [word.value] else []) + Words(items[1..], None)
    else Words(items[1..], Some(Begun(word) + Mean(items[0])))
  }

  function Begun(word: Option<string>): string { if word.Some? then word.value else "" }

  function Mean(i: Item): string
    requires !i.Gap?
  {
    match i
    case Plain(c) => [c]
    case Escaped(c) => [c]
    case Single(body) => body
    case Double(parts) => MeanQuoted(parts)
  }

  // ---------- The automaton accepts exactly the grammar's lines ----------

  lemma {:induction false} ScanConcat(l: Lexer, a: string, b: string)
    ensures Scan(l, a + b) == Scan(Scan(l, a), b)
    decreases |a|
  {
    hide Step;
    if a == "" {
      assert a + b == b;
    } else {
      ScanConcat(Step(l, a[0]), a[1..], b);
      assert (a + b)[1..] == a[1..] + b;
    }
  }

  lemma {:induction false} ScanSingle(l: Lexer, body: string)
    requires l.quote == Some('\'') && !l.escaping && l.started && '\'' !in body
    ensures Scan(l, body) == l.(token := l.token + body)
    decreases |body|
  {
    hide IsSpace;
    if body == "" {
      assert l.token + body == l.token;
    } else {
      assert body[0] in body;
      ScanSingle(Step(l, body[0]), body[1..]);
      assert l.token + [body[0]] + body[1..] == l.token + body;
    }
  }

  function SpellPart(q: Quoted): string { if q.Raw? then [q.c] else ['\\', q.c] }

  lemma ScanPart(l: Lexer, q: Quoted)
    requires l.quote == Some('"') && !l.escaping && l.started && (q.Raw? ==> q.c != '"' && q.c != '\\')
    ensures Scan(l, SpellPart(q)) == l.(token := l.token + [q.c])
  {
    hide IsSpace;
    ScanShort(l, SpellPart(q));
  }

  lemma {:induction false} ScanDouble(l: Lexer, parts: seq<Quoted>)
    requires l.quote == Some('"') && !l.escaping && l.started && RawPartsArePlain(parts)
    ensures Scan(l, SpellQuoted(parts)) == l.(token := l.token + MeanQuoted(parts))
    decreases |parts|
  {
    hide IsSpace, Step;
    if parts == [] {
      assert l.token + MeanQuoted(parts) == l.token;
    } else {
      var q := parts[0];
      assert q in parts;
      ScanPart(l, q);
      ScanConcat(l, SpellPart(q), SpellQuoted(parts[1..]));
      hide Scan;
      ScanDouble(l.(token := l.token + [q.c]), parts[1..]);
      Regroup(l.token, [q.c], MeanQuoted(parts[1..]));
    }
  }

  lemma Regroup(a: string, b: string, c: string)
    ensures a + b + c == a + (b + c)
  {}

  lemma ScanShort(l: Lexer, s: string)
    ensures |s| == 1 ==> Scan(l, s) == Step(l, s[0])
    ensures |s| == 2 ==> Scan(l, s) == Step(Step(l, s[0]), s[1])
  {
    hide Step;
    if |s| == 2 {
      var l' := Step(l, s[0]);
      assert s[1..][1..] == "" && s[1..][0] == s[1];
      assert Scan(l', s[1..]) == Scan(Step(l', s[1]), "");
    } else if |s| == 1 {
      assert s[1..] == "";
      assert Scan(Step(l, s[0]), "") == Step(l, s[0]);
    }
  }

  /** What one item does to an automaton between pieces. */
  function Absorb(l: Lexer, i: Item): Lexer {
    if i.Gap? then
      if l.started then l.(tokens := l.tokens + [l.token], token := "", started := false) else l
    else l.(token := l.token + Mean(i), started := true)
  }

  lemma ScanItem(l: Lexer, i: Item)
    requires !Open(l) && WellFormed(i)
    ensures Scan(l, Spell(i)) == Absorb(l, i)
  {
    ScanShort(l, Spell(i));
    match i
    case Gap(_) =>
    case Plain(_) =>
    case Escaped(_) =>
    case Single(body) =>
      ScanQuoted(l, '\'', body, body);
      ScanSingle(Step(l, '\''), body);
    case Double(parts) =>
      ScanQuoted(l, '"', SpellQuoted(parts), MeanQuoted(parts));
      ScanDouble(Step(l, '"'), parts);
  }

  lemma ScanQuoted(l: Lexer, quote: char, body: string, meaning: string)
    requires !Open(l) && quote in {'\'', '"'}
    ensures var inside := Step(l, quote);
            Scan(inside, body) == inside.(token := l.token + meaning)
            ==> Scan(l, [quote] + body + [quote]) == l.(token := l.token + meaning, started := true)
  {
    hide IsSpace;
    var inside := Step(l, quote);
    ScanShort(l, [quote]);
    ScanConcat(l, [quote] + body, [quote]);
    ScanConcat(l, [quote], body);
    ScanShort(Scan(inside, body), [quote]);
  }

  function Current(l: Lexer): Option<string> { if l.started then Some(l.token) else None }

  lemma {:induction false} ScanItems(l: Lexer, items: seq<Item>)
    requires !Open(l) && AllWellFormed(items) && (l.started || l.token == "")
    ensures !Open(Scan(l, SpellAll(items)))
    ensures Tokens(Scan(l, SpellAll(items))) == l.tokens + Words(items, Current(l))
    decreases |items|
  {
    hide WellFormed, Step, Spell;
    if items != [] {
      assert items[0] in items;
      ScanItem(l, items[0]);
      ScanConcat(l, Spell(items[0]), SpellAll(items[1..]));
      hide Scan;
      var l' := Absorb(l, items[0]);
      ScanItems(l', items[1..]);
      if items[0].Gap? && l.started {
        assert l.tokens + [l.token] + Words(items[1..], None) == l.tokens + ([l.token] + Words(items[1..], None));
      }
    }
  }

  lemma {:induction false} ParseSingle(l: Lexer, s: string) returns (body: string, rest: string)
    requires l.quote == Some('\'') && !l.escaping && !Open(Scan(l, s))
    ensures s == body + "'" + rest && '\'' !in body
    decreases |s|
  {
    hide IsSpace;
    if s[0] == '\'' {
      body, rest := "", s[1..];
    } else {
      body, rest := ParseSingle(Step(l, s[0]), s[1..]);
      body := [s[0]] + body;
    }
  }

  lemma {:induction false} ParseDouble(l: Lexer, s: string) returns (parts: seq<Quoted>, rest: string)
    requires l.quote == Some('"') && !l.escaping && !Open(Scan(l, s))
    ensures s == SpellQuoted(parts) + "\"" + rest && RawPartsArePlain(parts)
    decreases |s|
  {
    hide IsSpace;
    if s[0] == '"' {
      parts, rest := [], s[1..];
    } else if s[0] == '\\' {
      BackslashNeedsMore(l, s);
      parts, rest := ParseDouble(Step(Step(l, s[0]), s[1]), s[2..]);
      parts := [Backslashed(s[1])] + parts;
    } else {
      parts, rest := ParseDouble(Step(l, s[0]), s[1..]);
      parts := [Raw(s[0])] + parts;
    }
  }

  lemma BackslashNeedsMore(l: Lexer, s: string)
    requires s != "" && s[0] == '\\' && l.quote != Some('\'') && !l.escaping && !Open(Scan(l, s))
    ensures |s| >= 2 && Scan(l, s) == Scan(Step(Step(l, s[0]), s[1]), s[2..])
  {
    hide IsSpace;
    ScanConcat(l, s[..1], s[1..]);
    ScanShort(l, s[..1]);
    assert s == s[..1] + s[1..];
    if |s| >= 2 {
      assert s[1..][1..] == s[2..];
    }
  }

  /** Cuts an accepted line into items. */
  lemma {:induction false} ParseLine(l: Lexer, s: string) returns (items: seq<Item>)
    requires !Open(l) && !Open(Scan(l, s))
    ensures AllWellFormed(items) && SpellAll(items) == s
    decreases |s|
  {
    if s == "" {
      items := [];
    } else {
      var item, rest := ParseItem(l, s);
      ScanItem(l, item);
      ScanConcat(l, Spell(item), rest);
      var tail := ParseLine(Absorb(l, item), rest);
      items := [item] + tail;
    }
  }

  lemma ParseItem(l: Lexer, s: string) returns (item: Item, rest: string)
    requires s != "" && !Open(l) && !Open(Scan(l, s))
    ensures WellFormed(item) && s == Spell(item) + rest && |rest| < |s|
  {
    hide IsSpace;
    item, rest := Gap(s[0]), s[1..];
    if s[0] == '\\' {
      BackslashNeedsMore(l, s);
      item, rest := Escaped(s[1]), s[2..];
    } else if s[0] == '\'' {
      var body, after := ParseSingle(Step(l, s[0]), s[1..]);
      item, rest := Single(body), after;
    } else if s[0] == '"' {
      var parts, after := ParseDouble(Step(l, s[0]), s[1..]);
      item, rest := Double(parts), after;
    } else if !IsSpace(s[0]) {
      item := Plain(s[0]);
    }
  }

  ghost predicate Denotes(items: seq<Item>, line: string, tokens: seq<string>) {
    AllWellFormed(items) && SpellAll(items) == line && Words(items, None) == tokens
  }

  /** A line yields `tokens` exactly when its trimmed text is a line of the grammar with those
      words, and it is refused exactly when its trimmed text is no line of the grammar. */
  lemma TokenizeIffGrammar(line: string, tokens: seq<string>)
    ensures Tokenize(line) == Success(tokens) <==> exists items :: Denotes(items, Trim(line), tokens)
    ensures Tokenize(line).Failure? <==> !exists items :: AllWellFormed(items) && SpellAll(items) == Trim(line)
  {
    hide Trim, Scan;
    var s := Trim(line);
    if !Open(Scan(START, s)) {
      var items := ParseLine(START, s);
      ScanItems(START, items);
      assert [] + Words(items, None) == Words(items, None);
      assert Denotes(items, s, Words(items, None));
    }
    forall items | AllWellFormed(items) && SpellAll(items) == s
      ensures Tokenize(line) == Success(Words(items, None))
    {
      ScanItems(START, items);
      assert [] + Words(items, None) == Words(items, None);
    }
  }

  // ---------- Trimming ----------

  lemma {:induction false} TrimLeftKeeps(s: string)
    requires s == "" || !IsSpace(s[0])
    ensures TrimLeft(s) == s
  {}

  lemma {:induction false} TrimRightKeeps(s: string)
    requires s == "" || !IsSpace(s[|s| - 1])
    ensures TrimRight(s) == s
  {}

  lemma {:induction false} TrimLeftBefore(s: string, c: char)
    requires IsSpace(c)
    ensures TrimLeft(s + [c]) == if TrimLeft(s) == "" then "" else TrimLeft(s) + [c]
  {
    if s == "" {
      assert s + [c] == [c] && [c][1..] == "";
    } else if IsSpace(s[0]) {
      TrimLeftBefore(s[1..], c);
      assert (s + [c])[1..] == s[1..] + [c];
    }
  }

  lemma TrimIgnoresSpace(s: string, c: char)
    requires IsSpace(c)
    ensures Trim([c] + s) == Trim(s) && Trim(s + [c]) == Trim(s)
  {
    assert ([c] + s)[1..] == s;
    TrimLeftBefore(s, c);
    assert (TrimLeft(s) + [c])[..|TrimLeft(s)|] == TrimLeft(s);
  }

  /** The last item that is not a gap. */
  function LastPiece(items: seq<Item>): Option<Item> {
    if items == [] then None
    else if items[|items| - 1].Gap? then LastPiece(items[..|items| - 1])
    else Some(items[|items| - 1])
  }

  predicate EndsEscapingSpace(items: seq<Item>) {
    var last := LastPiece(items);
    last.Some? && last.value.Escaped? && IsSpace(last.value.c)
  }

  lemma {:induction false} LastPieceConcat(a: seq<Item>, b: seq<Item>)
    ensures LastPiece(a + b) == if LastPiece(b).Some? then LastPiece(b) else LastPiece(a)
  {
    if b == [] {
      assert a + b == a;
    } else {
      LastPieceConcat(a, b[..|b| - 1]);
      assert (a + b)[..|a + b| - 1] == a + b[..|b| - 1];
    }
  }

  lemma {:induction false} TrailingGapIsNoWord(items: seq<Item>, c: char, word: Option<string>)
    ensures Words(items + [Gap(c)], word) == Words(items, word)
  {
    hide Mean;
    if items == [] {
      assert items + [Gap(c)] == [Gap(c)] && [Gap(c)][1..] == [];
      assert Words([], None) == [];
    } else {
      assert (items + [Gap(c)])[1..] == items[1..] + [Gap(c)];
      var next := if items[0].Gap? then None else Some(Begun(word) + Mean(items[0]));
      TrailingGapIsNoWord(items[1..], c, next);
    }
  }

  /** A line of the grammar comes back as its words exactly when its last piece is not an escaped
      space, which trimming cuts in half; otherwise it is refused. */
  lemma {:induction false} SpelledLineIsRead(items: seq<Item>)
    requires AllWellFormed(items)
    ensures Tokenize(SpellAll(items)) == Success(Words(items, None)) <==> !EndsEscapingSpace(items)
    ensures Tokenize(SpellAll(items)).Failure? <==> EndsEscapingSpace(items)
    decreases |items|
  {
    hide IsSpace, Scan, Trim;
    if items == [] {
      ScanCore(items);
    } else if items[0].Gap? {
      assert items[0] in items && WellFormed(items[0]);
      assert items == [items[0]] + items[1..];
      SpelledLineIsRead(items[1..]);
      TrimIgnoresSpace(SpellAll(items[1..]), items[0].c);
      assert [items[0]][..0] == [] && LastPiece([items[0]]) == None;
      LastPieceConcat([items[0]], items[1..]);
      assert [] + Words(items[1..], None) == Words(items[1..], None);
    } else if items[|items| - 1].Gap? {
      var front, last := items[..|items| - 1], items[|items| - 1];
      assert last in items && WellFormed(last);
      assert items == front + [last];
      SpelledLineIsRead(front);
      SpellConcat(front, [last]);
      SpellOne(last);
      TrimIgnoresSpace(SpellAll(front), last.c);
      TrailingGapIsNoWord(front, last.c, None);
    } else {
      ScanCore(items);
    }
  }

  /** The same for a line that starts and ends with a piece. */
  lemma ScanCore(items: seq<Item>)
    requires AllWellFormed(items)
    requires items == [] || (!items[0].Gap? && !items[|items| - 1].Gap?)
    ensures Tokenize(SpellAll(items)) == if EndsEscapingSpace(items) then Failure(UnterminatedQuoting) else Success(Words(items, None))
  {
    hide IsSpace, Spell, Words, Scan, Trim, WellFormed;
    if items != [] && EndsEscapingSpace(items) {
      var front, last := items[..|items| - 1], items[|items| - 1];
      assert items == front + [last];
      CutEscapedSpace(front, last.c);
    } else {
      if items != [] {
        SpellStart(items);
        SpellEnd(items);
      }
      hide SpellAll;
      UntrimmedIsRead(items);
    }
  }

  lemma UntrimmedIsRead(items: seq<Item>)
    requires AllWellFormed(items)
    requires var s := SpellAll(items); s == "" || (!IsSpace(s[0]) && !IsSpace(s[|s| - 1]))
    ensures Tokenize(SpellAll(items)) == Success(Words(items, None))
  {
    var s := SpellAll(items);
    TrimLeftKeeps(s);
    TrimRightKeeps(s);
    hide IsSpace, SpellAll, Scan, Words, WellFormed, TrimLeft, TrimRight;
    ScanItems(START, items);
    assert [] + Words(items, None) == Words(items, None);
  }

  lemma SpellEnd(items: seq<Item>)
    requires AllWellFormed(items) && items != [] && !items[|items| - 1].Gap? && !EndsEscapingSpace(items)
    ensures var s := SpellAll(items); s != "" && !IsSpace(s[|s| - 1])
  {
    var front, last := items[..|items| - 1], items[|items| - 1];
    assert items == front + [last] && last in items && WellFormed(last);
    SpellConcat(front, [last]);
    SpellOne(last);
    hide SpellAll, SpellQuoted, IsSpace;
    QuotesAreNoSpace();
    assert Spell(last) != "" && !IsSpace(Spell(last)[|Spell(last)| - 1]);
  }

  lemma QuotesAreNoSpace()
    ensures !IsSpace('\'') && !IsSpace('"')
  {}

  /** Leading gaps and gaps after the escaped space do not save a line that ends in one. */
  lemma EscapedTrailingSpaceIsRefused(items: seq<Item>, c: char, gaps: seq<Item>)
    requires AllWellFormed(items + [Escaped(c)] + gaps) && IsSpace(c) && LastPiece(gaps).None?
    ensures Tokenize(SpellAll(items + [Escaped(c)] + gaps)).Failure?
  {
    hide IsSpace, AllWellFormed, SpellAll, Tokenize;
    var piece := items + [Escaped(c)];
    assert piece[|piece| - 1] == Escaped(c);
    LastPieceConcat(piece, gaps);
    SpelledLineIsRead(piece + gaps);
  }

  lemma CutEscapedSpace(items: seq<Item>, c: char)
    requires AllWellFormed(items) && IsSpace(c) && (items == [] || !items[0].Gap?)
    ensures Tokenize(SpellAll(items + [Escaped(c)])).Failure?
  {
    hide IsSpace, WellFormed;
    var body := SpellAll(items);
    SpellConcat(items, [Escaped(c)]);
    assert SpellAll([Escaped(c)]) == ['\\', c] + SpellAll([]);
    var s := body + ['\\', c];
    if items != [] {
      SpellStart(items);
    }
    hide SpellAll;
    assert s == SpellAll(items + [Escaped(c)]);
    CutTrailingSpace(body, c);
    ScanItems(START, items);
    ScanConcat(START, body, ['\\']);
    ScanShort(Scan(START, body), ['\\']);
  }

  lemma CutTrailingSpace(body: string, c: char)
    requires IsSpace(c) && (body == "" || !IsSpace(body[0]))
    ensures Trim(body + ['\\', c]) == body + ['\\']
  {
    var s := body + ['\\', c];
    assert s[0] == (body + ['\\'])[0];
    TrimLeftKeeps(s);
    assert s[..|s| - 1] == body + ['\\'];
    TrimRightKeeps(body + ['\\']);
  }

  lemma {:induction false} SpellConcat(a: seq<Item>, b: seq<Item>)
    ensures SpellAll(a + b) == SpellAll(a) + SpellAll(b)
  {
    hide Spell;
    if a == [] {
      assert a + b == b;
    } else {
      SpellConcat(a[1..], b);
      assert (a + b)[0] == a[0] && (a + b)[1..] == a[1..] + b;
      Regroup(Spell(a[0]), SpellAll(a[1..]), SpellAll(b));
    }
  }

  lemma SpellStart(items: seq<Item>)
    requires AllWellFormed(items) && items != [] && !items[0].Gap?
    ensures SpellAll(items) != "" && !IsSpace(SpellAll(items)[0])
  {
    assert items[0] in items;
  }

  // ---------- Quoting ----------

  /** Closes the quote, escapes a quote, and opens again. */
  function EscapeQuotes(s: string): string {
    if s == "" then "" else (if s[0] == '\'' then "'\\''" else [s[0]]) + EscapeQuotes(s[1..])
  }

  function Quote(s: string): string { "'" + EscapeQuotes(s) + "'" }

  function QuoteAll(arguments: seq<string>): string {
    if arguments == [] then ""
    else if |arguments| == 1 then Quote(arguments[0])
    else Quote(arguments[0]) + " " + QuoteAll(arguments[1..])
  }

  /** The pieces of a quoted argument whose first piece already holds `body`. */
  function QuoteItems(body: string, s: string): seq<Item>
    decreases |s|
  {
    if s == "" then [Single(body)]
    else if s[0] == '\'' then [Single(body), Escaped('\'')] + QuoteItems("", s[1..])
    else QuoteItems(body + [s[0]], s[1..])
  }

  lemma {:induction false} QuoteItemsAreWellFormed(body: string, s: string)
    requires '\'' !in body
    ensures AllWellFormed(QuoteItems(body, s))
    decreases |s|
  {
    if s != "" && s[0] == '\'' {
      QuoteItemsAreWellFormed("", s[1..]);
    } else if s != "" {
      QuoteItemsAreWellFormed(body + [s[0]], s[1..]);
    }
  }

  lemma {:induction false} QuoteItemsSpell(body: string, s: string)
    ensures SpellAll(QuoteItems(body, s)) == "'" + body + EscapeQuotes(s) + "'"
    decreases |s|
  {
    hide SpellAll;
    if s == "" {
      SpellOne(Single(body));
      assert "'" + body + "'" == "'" + body + "" + "'";
    } else if s[0] == '\'' {
      QuoteItemsSpell("", s[1..]);
      SpellTwo(Single(body), Escaped('\''), QuoteItems("", s[1..]));
      QuoteGlue(body, EscapeQuotes(s[1..]));
    } else {
      QuoteItemsSpell(body + [s[0]], s[1..]);
      LetterGlue(body, s[0], EscapeQuotes(s[1..]));
    }
  }

  lemma SpellOne(a: Item)
    ensures SpellAll([a]) == Spell(a)
  {
    hide Spell;
    assert SpellAll([a]) == Spell(a) + SpellAll([]);
  }

  lemma LetterGlue(body: string, c: char, e: string)
    ensures "'" + (body + [c]) + e + "'" == "'" + body + ([c] + e) + "'"
  {}

  lemma QuoteGlue(body: string, e: string)
    ensures "'" + body + "'" + ("\\'" + ("'" + "" + e + "'")) == "'" + body + ("'\\''" + e) + "'"
  {}

  lemma SpellTwo(a: Item, b: Item, rest: seq<Item>)
    ensures SpellAll([a, b] + rest) == Spell(a) + (Spell(b) + SpellAll(rest))
  {
    hide Spell;
    assert ([a, b] + rest)[1..] == [b] + rest && ([b] + rest)[1..] == rest;
    assert SpellAll([b] + rest) == Spell(b) + SpellAll(rest);
  }

  lemma WordsTwo(a: Item, b: Item, tail: seq<Item>, word: Option<string>)
    requires !a.Gap? && !b.Gap?
    ensures Words([a] + tail, word) == Words(tail, Some(Begun(word) + Mean(a)))
    ensures Words([a, b] + tail, word) == Words(tail, Some(Begun(word) + Mean(a) + Mean(b)))
  {
    hide Mean;
    assert ([a] + tail)[1..] == tail;
    assert ([a, b] + tail)[1..] == [b] + tail && ([b] + tail)[1..] == tail;
    assert Words([b] + tail, Some(Begun(word) + Mean(a))) == Words(tail, Some(Begun(word) + Mean(a) + Mean(b)));
  }

  lemma NextLetter(before: string, s: string)
    requires s != ""
    ensures before + [s[0]] + s[1..] == before + s
  {}

  lemma {:induction false} QuoteItemsMean(body: string, s: string, word: Option<string>, rest: seq<Item>)
    ensures Words(QuoteItems(body, s) + rest, word) == Words(rest, Some(Begun(word) + body + s))
    decreases |s|
  {
    hide Words;
    if s == "" {
      WordsTwo(Single(body), Single(body), rest, word);
      assert Begun(word) + body + s == Begun(word) + body;
    } else if s[0] == '\'' {
      var tail := QuoteItems("", s[1..]) + rest;
      assert QuoteItems(body, s) + rest == [Single(body), Escaped('\'')] + tail;
      WordsTwo(Single(body), Escaped('\''), tail, word);
      var before := Begun(word) + body + ['\''];
      QuoteItemsMean("", s[1..], Some(before), rest);
      hide QuoteItems;
      NextLetter(Begun(word) + body, s);
      assert before + "" == before;
    } else {
      QuoteItemsMean(body + [s[0]], s[1..], word, rest);
      hide QuoteItems;
      NextLetter(Begun(word) + body, s);
      Regroup(Begun(word), body, [s[0]]);
    }
  }

  function QuoteAllItems(arguments: seq<string>): seq<Item> {
    if arguments == [] then []
    else if |arguments| == 1 then QuoteItems("", arguments[0])
    else QuoteItems("", arguments[0]) + ([Gap(' ')] + QuoteAllItems(arguments[1..]))
  }

  lemma {:induction false} QuoteAllSpell(arguments: seq<string>)
    ensures AllWellFormed(QuoteAllItems(arguments)) && SpellAll(QuoteAllItems(arguments)) == QuoteAll(arguments)
  {
    hide QuoteItems, EscapeQuotes;
    if arguments != [] {
      var a := arguments[0];
      QuoteItemsSpell("", a);
      QuoteItemsAreWellFormed("", a);
      assert "'" + "" + EscapeQuotes(a) + "'" == Quote(a);
      if |arguments| > 1 {
        QuoteAllSpell(arguments[1..]);
        var rest := [Gap(' ')] + QuoteAllItems(arguments[1..]);
        SpellConcat(QuoteItems("", a), rest);
        assert rest[1..] == QuoteAllItems(arguments[1..]);
        assert SpellAll(rest) == " " + QuoteAll(arguments[1..]);
        assert Quote(a) + (" " + QuoteAll(arguments[1..])) == QuoteAll(arguments);
      }
    }
  }

  lemma {:induction false} QuoteAllWords(arguments: seq<string>)
    ensures Words(QuoteAllItems(arguments), None) == arguments
  {
    hide QuoteItems, Mean;
    if arguments != [] {
      var a := arguments[0];
      assert "" + "" + a == a;
      if |arguments| == 1 {
        QuoteItemsMean("", a, None, []);
        assert QuoteItems("", a) + [] == QuoteItems("", a);
      } else {
        QuoteAllWords(arguments[1..]);
        var rest := [Gap(' ')] + QuoteAllItems(arguments[1..]);
        QuoteItemsMean("", a, None, rest);
        assert rest[1..] == QuoteAllItems(arguments[1..]);
        assert arguments == [a] + arguments[1..];
      }
    }
  }

  lemma {:induction false} QuoteAllEnds(arguments: seq<string>)
    requires arguments != []
    ensures var s := QuoteAll(arguments); |s| >= 2 && s[0] == '\'' && s[|s| - 1] == '\''
  {
    if |arguments| > 1 {
      QuoteAllEnds(arguments[1..]);
    }
  }

  /** Quoting, joining with spaces and tokenizing gives every list of arguments back. */
  lemma QuoteAllRoundTrip(arguments: seq<string>)
    ensures Tokenize(QuoteAll(arguments)) == Success(arguments)
  {
    var s := QuoteAll(arguments);
    if arguments != [] {
      QuoteAllEnds(arguments);
    }
    TrimLeftKeeps(s);
    TrimRightKeeps(s);
    QuoteAllSpell(arguments);
    QuoteAllWords(arguments);
    assert Denotes(QuoteAllItems(arguments), s, arguments);
    TokenizeIffGrammar(s, arguments);
  }
}
