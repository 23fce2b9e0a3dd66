/** The text form of a grid distribution, such as "64,32{2},16": parsing and printing. */
module GridDistributionText {
  import opened Arithmetic

  /** `count` neighbouring subdomains of the same extent. */
  datatype Subdomains = Subdomains(extent: nat, count: nat)

  datatype Result<T> = Ok(value: T) | Failed

  // ---------------------------------------------------------------- decimal numbers

  predicate IsDigit(c: char) {
    '0' <= c <= '9'
  }

  predicate AllDigits(s: string) {
    forall i :: 0 <= i < |s| ==> IsDigit(s[i])
  }

  function DigitOf(d: nat): (c: char)
    requires d < 10
    ensures IsDigit(c)
  {
    '0' + d as char
  }

  function ValueOf(c: char): (d: nat)
    requires IsDigit(c)
    ensures d < 10
  {
    (c - '0') as int
  }

  function Decimal(n: nat): (s: string)
    ensures s != [] && AllDigits(s)
  {
    if n < 10 then [DigitOf(n)] else Decimal(n / 10) + [DigitOf(n % 10)]
  }

  /** `stoul` of a digit string, without its range check. */
  function Value(s: string): nat
    requires AllDigits(s)
  {
    if s == [] then 0 else 10 * Value(s[..|s| - 1]) + ValueOf(s[|s| - 1])
  }

  lemma {:induction false} ValueOfDecimal(n: nat)
    ensures Value(Decimal(n)) == n
  {
    if n >= 10 {
      ValueOfDecimal(n / 10);
      var s := Decimal(n);
      assert s[..|s| - 1] == Decimal(n / 10);
    } else {
      assert Decimal(n)[..0] == [];
    }
  }

  /** A digit counts for its distance from '0', and the digits before it ten times as much. */
  lemma ValueOfNext(s: string, c: char)
    requires AllDigits(s) && IsDigit(c)
    ensures Value([]) == 0 && AllDigits(s + [c]) && Value(s + [c]) == 10 * Value(s) + (c as int - '0' as int)
  {
    assert (s + [c])[..|s|] == s;
  }

  // ---------------------------------------------------------------- tokens

  /** Length of the longest run of digits at the front. */
  function DigitRun(s: string): (n: nat)
    ensures n <= |s| && AllDigits(s[..n])
    ensures n < |s| ==> !IsDigit(s[n])
  {
    if s == [] || !IsDigit(s[0]) then 0
    else
      var n := DigitRun(s[1..]);
      assert s[..n + 1] == [s[0]] + s[1..][..n];
      n + 1
  }

  /** Length of a group of braces around digits at the front; 0 if there is none. */
  function Group(s: string): (n: nat)
    ensures n <= |s|
  {
    if s == [] || s[0] != '{' then 0
    else
      var n := DigitRun(s[1..]);
      if n == 0 || n + 1 == |s| || s[n + 1] != '}' then 0 else n + 2
  }

  /** Length of all groups at the front. */
  function Groups(s: string): (n: nat)
    ensures n <= |s|
  {
    var n := Group(s);
    if n == 0 then 0 else n + Groups(s[n..])
  }

  /** Length of the match of `[0-9]+(\{[0-9]+})*` at the front, as long as possible; 0 if there
      is none. */
  function Match(s: string): (m: nat)
    ensures m <= |s|
  {
    var n := DigitRun(s);
    if n == 0 then 0 else n + Groups(s[n..])
  }

  /** All matches, from left to right. */
  function Tokens(s: string): seq<string> {
    if s == [] then []
    else
      var m := Match(s);
      if m == 0 then Tokens(s[1..]) else [s[..m]] + Tokens(s[m..])
  }

  // ---------------------------------------------------------------- replacement in a token

  function AfterLastOpening(s: string): string {
    if s == [] then []
    else if s[|s| - 1] == '{' then []
    else AfterLastOpening(s[..|s| - 1]) + [s[|s| - 1]]
  }

  function RemoveClosing(s: string): string {
    if s == [] then [] else (if s[0] == '}' then [] else [s[0]]) + RemoveClosing(s[1..])
  }

  /** `(.*\{)|(})` replaced by nothing: all up to the last opening brace, and closing braces. */
  function CountText(s: string): string {
    RemoveClosing(AfterLastOpening(s))
  }

  function FirstOpening(s: string): (i: nat)
    ensures i <= |s| && '{' !in s[..i]
    ensures i < |s| ==> s[i] == '{'
  {
    if s == [] || s[0] == '{' then 0
    else
      var i := FirstOpening(s[1..]);
      assert s[..i + 1] == [s[0]] + s[1..][..i];
      i + 1
  }

  function AfterLastClosing(s: string): string {
    if s == [] then []
    else if s[|s| - 1] == '}' then []
    else AfterLastClosing(s[..|s| - 1]) + [s[|s| - 1]]
  }

  /** `\{.*}` replaced by nothing: all from the first opening to the last closing brace. */
  function ExtentText(s: string): string {
    var i := FirstOpening(s);
    var rest := s[i..];
    s[..i] + (if '}' in rest then AfterLastClosing(rest) else rest)
  }

  // ---------------------------------------------------------------- parsing

  /** `stoul`: a number that does not fit 64 bits, or that is none, is an error. */
  function Stoul(s: string): Result<nat> {
    if AllDigits(s) && s != [] && Value(s) < WORD * WORD then Ok(Value(s)) else Failed
  }

  /** One entry of the list, cast to 32 bits. */
  function ParseToken(token: string): Result<Subdomains> {
    var count := if CountText(token) == token then "1" else CountText(token);
    match (Stoul(ExtentText(token)), Stoul(count))
    case (Ok(e), Ok(c)) => Ok(Subdomains(Wrap(e), Wrap(c)))
    case _ => Failed
  }

  function Values(rs: seq<Result<Subdomains>>): seq<Subdomains>
    requires forall k :: 0 <= k < |rs| ==> rs[k].Ok?
  {
    seq(|rs|, k requires 0 <= k < |rs| => rs[k].value)
  }

  /** All values, unless one is missing. */
  function AllOf(rs: seq<Result<Subdomains>>): Result<seq<Subdomains>> {
    if forall k :: 0 <= k < |rs| ==> rs[k].Ok? then Ok(Values(rs)) else Failed
  }

  function Each(tokens: seq<string>, read: string -> Result<Subdomains>): seq<Result<Subdomains>> {
    seq(|tokens|, k requires 0 <= k < |tokens| => read(tokens[k]))
  }

  /** The entries of all matches, unless one of them is an error. */
  function ParseTokens(tokens: seq<string>): Result<seq<Subdomains>> {
    AllOf(Each(tokens, ParseToken))
  }

  lemma AllOfThese(rs: seq<Result<Subdomains>>, list: seq<Subdomains>)
    requires |rs| == |list| && forall k :: 0 <= k < |rs| ==> rs[k] == Ok(list[k])
    ensures AllOf(rs) == Ok(list)
  {
    assert Values(rs) == list;
  }

  /** One pass over the matches, appending to the list. */
  method ReadAll(tokens: seq<string>, read: string -> Result<Subdomains>) returns (r: Result<seq<Subdomains>>)
    ensures r == AllOf(Each(tokens, read))
  {
    ghost var rs := Each(tokens, read);
    var list := [];
    for k := 0 to |tokens|
      invariant |list| == k && forall j :: 0 <= j < k ==> rs[j] == Ok(list[j])
    {
      var p := read(tokens[k]);
      assert rs[k] == p;
      if p.Failed? { return Failed; }
      list := list + [p.value];
    }
    AllOfThese(rs, list);
    r := Ok(list);
  }

  /** `parse`: extent and count of every match. */
  method Parse(s: string) returns (r: Result<seq<Subdomains>>)
    ensures r == ParseTokens(Tokens(s))
  {
    r := ReadAll(Tokens(s), ParseToken);
  }

  // ---------------------------------------------------------------- what texts mean

  /** A number in braces. */
  function Braced(digits: string): string {
    ['{'] + digits + ['}']
  }

  function GroupsText(groups: seq<string>): string {
    if groups == [] then [] else Braced(groups[0]) + GroupsText(groups[1..])
  }

  predicate IsNumber(s: string) {
    s != [] && AllDigits(s)
  }

  /** A match: a number, and any number of numbers in braces. */
  datatype Item = Item(extent: string, groups: seq<string>) {
    predicate Ok() {
      IsNumber(extent) && forall i :: 0 <= i < |groups| ==> IsNumber(groups[i])
    }

    function Text(): string {
      extent + GroupsText(groups)
    }

    /** The first number is the extent; the last one in braces is the count, which else is one.
        Numbers from 2^64 on are errors, the others are cast to 32 bits. */
    function Meaning(): Result<Subdomains>
      requires Ok()
    {
      if Value(extent) >= WORD * WORD then Failed
      else if groups == [] then Result.Ok(Subdomains(Wrap(Value(extent)), 1))
      else if Value(groups[|groups| - 1]) >= WORD * WORD then Failed
      else Result.Ok(Subdomains(Wrap(Value(extent)), Wrap(Value(groups[|groups| - 1]))))
    }
  }

  lemma {:induction false} DigitsHaveNoBrace(s: string)
    requires AllDigits(s)
    ensures '{' !in s && '}' !in s
  {
  }

  lemma {:induction false} AfterLastOpeningKeeps(s: string)
    requires '{' !in s
    ensures AfterLastOpening(s) == s
  {
    if s != [] {
      AfterLastOpeningKeeps(s[..|s| - 1]);
      assert s == s[..|s| - 1] + [s[|s| - 1]];
    }
  }

  lemma {:induction false} AfterLastOpeningCuts(a: string, b: string)
    requires '{' !in b
    ensures AfterLastOpening(a + ['{'] + b) == b
  {
    var s := a + ['{'] + b;
    if b != [] {
      assert s[..|s| - 1] == a + ['{'] + b[..|b| - 1];
      AfterLastOpeningCuts(a, b[..|b| - 1]);
      assert b == b[..|b| - 1] + [b[|b| - 1]];
    }
  }

  lemma {:induction false} RemoveClosingKeeps(s: string)
    requires '}' !in s
    ensures RemoveClosing(s) == s && RemoveClosing(s + ['}']) == s
  {
    if s == [] {
      assert ['}'][1..] == [];
    } else {
      RemoveClosingKeeps(s[1..]);
      assert (s + ['}'])[1..] == s[1..] + ['}'];
      assert s == [s[0]] + s[1..];
    }
  }

  lemma {:induction false} FirstOpeningOf(a: string, b: string)
    requires '{' !in a && (b == [] || b[0] == '{')
    ensures FirstOpening(a + b) == |a|
  {
    if a == [] {
      assert a + b == b;
    } else {
      FirstOpeningOf(a[1..], b);
      assert (a + b)[1..] == a[1..] + b;
    }
  }

  lemma PlainToken(e: string)
    requires AllDigits(e)
    ensures CountText(e) == e && ExtentText(e) == e
  {
    DigitsHaveNoBrace(e);
    AfterLastOpeningKeeps(e);
    RemoveClosingKeeps(e);
    FirstOpeningOf(e, []);
    assert e + [] == e && e[|e|..] == [];
  }

  lemma CountOf(a: string, c: string)
    requires AllDigits(c)
    ensures CountText(a + Braced(c)) == c
  {
    DigitsHaveNoBrace(c);
    assert a + Braced(c) == a + ['{'] + (c + ['}']);
    AfterLastOpeningCuts(a, c + ['}']);
    RemoveClosingKeeps(c);
  }

  /** Whatever is in braces is removed with them. */
  lemma ExtentOf(e: string, g: string)
    requires AllDigits(e) && g != [] && g[0] == '{' && g[|g| - 1] == '}'
    ensures ExtentText(e + g) == e
  {
    DigitsHaveNoBrace(e);
    FirstOpeningOf(e, g);
    assert (e + g)[|e|..] == g && (e + g)[..|e|] == e;
    assert '}' in g && AfterLastClosing(g) == [];
  }

  lemma Associate(a: string, b: string, c: string)
    ensures (a + b) + c == a + (b + c)
  {
  }

  lemma {:induction false} GroupsTextLast(groups: seq<string>, front: seq<string>, last: string)
    requires groups == front + [last]
    ensures GroupsText(groups) == GroupsText(front) + Braced(last)
    decreases front
  {
    if front == [] {
      assert groups[1..] == [];
    } else {
      assert groups[0] == front[0] && groups[1..] == front[1..] + [last];
      GroupsTextLast(groups[1..], front[1..], last);
      Associate(Braced(front[0]), GroupsText(front[1..]), Braced(last));
    }
  }

  lemma GroupsTextStarts(groups: seq<string>)
    requires groups != []
    ensures GroupsText(groups) != [] && GroupsText(groups)[0] == '{'
  {
  }

  /** A match means what it says. */
  lemma ParseItem(item: Item)
    requires item.Ok()
    ensures ParseToken(item.Text()) == item.Meaning()
  {
    var e, groups := item.extent, item.groups;
    if groups == [] {
      PlainToken(e);
      assert item.Text() == e;
      assert Value("1") == 10 * Value("1"[..0]) + 1;
    } else {
      var front, c := groups[..|groups| - 1], groups[|groups| - 1];
      var g := GroupsText(groups);
      GroupsTextLast(groups, front, c);
      Associate(e, GroupsText(front), Braced(c));
      CountOf(e + GroupsText(front), c);
      GroupsTextStarts(groups);
      ExtentOf(e, g);
      assert |e + g| > |c|;
    }
  }

  /** A number alone is an extent, and the number of one subdomain. */
  lemma ParsePlain(e: string)
    requires IsNumber(e) && Value(e) < 0x1_0000_0000_0000_0000
    ensures Item(e, []).Text() == e && ParseToken(e) == Ok(Subdomains(Wrap(Value(e)), 1))
  {
    ParseItem(Item(e, []));
    assert e + [] == e;
  }

  lemma BracedText(e: string, c: string)
    ensures Item(e, [c]).Text() == e + "{" + c + "}"
  {
    assert [c][1..] == [];
    assert GroupsText([c]) == Braced(c) + GroupsText([c][1..]) == Braced(c);
    Associate(e, "{" + c, "}");
    Associate(e, "{", c);
  }

  /** Of a number followed by one in braces, the first is the extent and the second the count. */
  lemma ParseBraced(e: string, c: string, token: string)
    requires IsNumber(e) && IsNumber(c) && token == e + "{" + c + "}"
    requires Value(e) < 0x1_0000_0000_0000_0000 && Value(c) < 0x1_0000_0000_0000_0000
    ensures Item(e, [c]).Text() == token && ParseToken(token) == Ok(Subdomains(Wrap(Value(e)), Wrap(Value(c))))
  {
    BracedText(e, c);
    ParseItem(Item(e, [c]));
  }

  // ---------------------------------------------------------------- lists of matches

  /** Text between matches. */
  predicate IsGap(s: string) {
    forall i :: 0 <= i < |s| ==> !IsDigit(s[i])
  }

  /** What may follow a match. */
  predicate Ends(s: string) {
    s == [] || (!IsDigit(s[0]) && s[0] != '{')
  }

  /** Matches, each followed by its gap; only the last gap may be empty. */
  predicate GapsOk(items: seq<Item>, gaps: seq<string>) {
    && |gaps| == |items|
    && (forall i :: 0 <= i < |items| ==> items[i].Ok() && IsGap(gaps[i]) && Ends(gaps[i]))
    && (forall i :: 0 <= i < |items| - 1 ==> gaps[i] != [])
  }

  function TextOf(items: seq<Item>, gaps: seq<string>): string
    requires |gaps| == |items|
  {
    if items == [] then [] else items[0].Text() + gaps[0] + TextOf(items[1..], gaps[1..])
  }

  function Texts(items: seq<Item>): seq<string> {
    seq(|items|, k requires 0 <= k < |items| => items[k].Text())
  }

  lemma {:induction false} DigitRunOf(digits: string, rest: string)
    requires AllDigits(digits) && (rest == [] || !IsDigit(rest[0]))
    ensures DigitRun(digits + rest) == |digits|
  {
    if digits == [] {
      assert digits + rest == rest;
    } else {
      DigitRunOf(digits[1..], rest);
      assert (digits + rest)[1..] == digits[1..] + rest;
    }
  }

  lemma GroupOf(digits: string, rest: string)
    requires IsNumber(digits)
    ensures Group(Braced(digits) + rest) == |digits| + 2
  {
    var s := Braced(digits) + rest;
    var tail := ['}'] + rest;
    assert s[1..] == digits + tail;
    DigitRunOf(digits, tail);
    assert s[|digits| + 1] == '}';
  }

  lemma {:induction false} GroupsOf(groups: seq<string>, rest: string)
    requires (forall i :: 0 <= i < |groups| ==> IsNumber(groups[i])) && Ends(rest)
    ensures Groups(GroupsText(groups) + rest) == |GroupsText(groups)|
  {
    if groups == [] {
      assert GroupsText(groups) + rest == rest && Group(rest) == 0;
    } else {
      var tail := GroupsText(groups[1..]) + rest;
      assert GroupsText(groups) + rest == Braced(groups[0]) + tail;
      GroupOf(groups[0], tail);
      assert (Braced(groups[0]) + tail)[|groups[0]| + 2..] == tail;
      GroupsOf(groups[1..], rest);
    }
  }

  lemma FirstToken(s: string, m: nat)
    requires 0 < m == Match(s)
    ensures Tokens(s) == [s[..m]] + Tokens(s[m..])
  {
  }

  /** A match ends where neither a digit nor a group follows. */
  lemma TokensOfItem(item: Item, rest: string)
    requires item.Ok() && Ends(rest)
    ensures Tokens(item.Text() + rest) == [item.Text()] + Tokens(rest)
  {
    var e, g := item.extent, GroupsText(item.groups);
    var s := item.Text() + rest;
    assert s == e + (g + rest);
    DigitRunOf(e, g + rest);
    GroupsOf(item.groups, rest);
    assert s[|e|..] == g + rest && s[..|e| + |g|] == e + g && s[|e| + |g|..] == rest;
    FirstToken(s, |e| + |g|);
  }

  lemma {:induction false} TokensAfterGap(gap: string, rest: string)
    requires IsGap(gap)
    ensures Tokens(gap + rest) == Tokens(rest)
  {
    if gap == [] {
      assert gap + rest == rest;
    } else {
      TokensAfterGap(gap[1..], rest);
      assert (gap + rest)[1..] == gap[1..] + rest && DigitRun(gap + rest) == 0;
    }
  }

  lemma TokensOfNext(item: Item, gap: string, rest: string)
    requires item.Ok() && IsGap(gap) && Ends(gap) && (gap != [] || rest == [])
    ensures Tokens(item.Text() + gap + rest) == [item.Text()] + Tokens(rest)
  {
    assert item.Text() + gap + rest == item.Text() + (gap + rest);
    assert Ends(gap + rest);
    TokensOfItem(item, gap + rest);
    TokensAfterGap(gap, rest);
  }

  lemma GapsTail(items: seq<Item>, gaps: seq<string>)
    requires GapsOk(items, gaps) && items != []
    ensures items[0].Ok() && IsGap(gaps[0]) && Ends(gaps[0]) && (gaps[0] != [] || items[1..] == [])
    ensures GapsOk(items[1..], gaps[1..])
  {
  }

  lemma TextsCons(items: seq<Item>)
    requires items != []
    ensures Texts(items) == [items[0].Text()] + Texts(items[1..])
  {
  }

  /** The matches of a text are the ones it was put together from, whatever is between them. */
  lemma {:induction false} TokensOfText(items: seq<Item>, gaps: seq<string>)
    requires GapsOk(items, gaps)
    ensures Tokens(TextOf(items, gaps)) == Texts(items)
    decreases |items|
  {
    if items != [] {
      GapsTail(items, gaps);
      TokensOfText(items[1..], gaps[1..]);
      TokensOfNext(items[0], gaps[0], TextOf(items[1..], gaps[1..]));
      TextsCons(items);
    }
  }

  ghost predicate AllMean(items: seq<Item>) {
    forall k :: 0 <= k < |items| ==> items[k].Ok() && items[k].Meaning().Ok?
  }

  ghost function Meanings(items: seq<Item>): seq<Subdomains>
    requires AllMean(items)
  {
    seq(|items|, k requires 0 <= k < |items| => items[k].Meaning().value)
  }

  lemma MeaningsOf(items: seq<Item>, rs: seq<Result<Subdomains>>)
    requires |rs| == |items| && forall k :: 0 <= k < |items| ==> items[k].Ok() && rs[k] == items[k].Meaning()
    ensures AllMean(items) ==> AllOf(rs) == Ok(Meanings(items))
    ensures !AllMean(items) ==> AllOf(rs) == Failed
  {
    if AllMean(items) { AllOfThese(rs, Meanings(items)); }
  }

  lemma ParseTexts(items: seq<Item>)
    requires forall k :: 0 <= k < |items| ==> items[k].Ok()
    ensures AllMean(items) ==> ParseTokens(Texts(items)) == Ok(Meanings(items))
    ensures !AllMean(items) ==> ParseTokens(Texts(items)) == Failed
  {
    var rs := Each(Texts(items), ParseToken);
    forall k | 0 <= k < |items| ensures rs[k] == items[k].Meaning() { ParseItem(items[k]); }
    MeaningsOf(items, rs);
  }

  /** A text of any matches, with anything before, between and after them that has no digits: it
      parses to what they mean, and fails exactly if one of the numbers is too large. */
  lemma ParseText(lead: string, items: seq<Item>, gaps: seq<string>)
    requires IsGap(lead) && GapsOk(items, gaps)
    ensures AllMean(items) ==> ParseTokens(Tokens(lead + TextOf(items, gaps))) == Ok(Meanings(items))
    ensures !AllMean(items) ==> ParseTokens(Tokens(lead + TextOf(items, gaps))) == Failed
  {
    TokensAfterGap(lead, TextOf(items, gaps));
    TokensOfText(items, gaps);
    ParseTexts(items);
  }

  lemma TextOfTwo(a: Item, b: Item)
    ensures TextOf([a, b], [",", ""]) == a.Text() + "," + b.Text()
  {
    var items, gaps := [a, b], [",", ""];
    assert items[1..] == [b] && gaps[1..] == [""] && [b][1..] == [] && [""][1..] == [];
    assert TextOf([b], [""]) == b.Text() + "" + TextOf([b][1..], [""][1..]) == b.Text();
  }

  lemma MeaningsOfTwo(a: Item, b: Item, p: Subdomains, q: Subdomains)
    requires a.Ok() && b.Ok() && a.Meaning() == Ok(p) && b.Meaning() == Ok(q)
    ensures GapsOk([a, b], [",", ""]) && AllMean([a, b]) && Meanings([a, b]) == [p, q]
  {
  }

  /** Entries come in the order of the text. */
  lemma ParseTwo(e: string, c: string, f: string, text: string)
    requires IsNumber(e) && IsNumber(c) && IsNumber(f) && text == e + "{" + c + "}" + "," + f
    requires Value(e) < 0x1_0000_0000_0000_0000 && Value(c) < 0x1_0000_0000_0000_0000
    requires Value(f) < 0x1_0000_0000_0000_0000
    ensures ParseTokens(Tokens(text)) == Ok([Subdomains(Wrap(Value(e)), Wrap(Value(c))), Subdomains(Wrap(Value(f)), 1)])
  {
    var a, b := Item(e, [c]), Item(f, []);
    BracedText(e, c);
    assert b.Text() == f;
    TextOfTwo(a, b);
    MeaningsOfTwo(a, b, Subdomains(Wrap(Value(e)), Wrap(Value(c))), Subdomains(Wrap(Value(f)), 1));
    ParseText("", [a, b], [",", ""]);
    assert "" + TextOf([a, b], [",", ""]) == text;
  }

  // ---------------------------------------------------------------- printing

  /** An entry; a single subdomain may be written with or without its count. */
  function Entry(p: Subdomains, explicit: bool): Item {
    Item(Decimal(p.extent), if p.count == 1 && !explicit then [] else [Decimal(p.count)])
  }

  function Entries(list: seq<Subdomains>, explicit: seq<bool>): seq<Item>
    requires |explicit| == |list|
  {
    seq(|list|, k requires 0 <= k < |list| => Entry(list[k], explicit[k]))
  }

  function Commas(n: nat): seq<string> {
    seq(n, k requires 0 <= k < n => if k + 1 < n then "," else "")
  }

  /** The entries, separated by commas. */
  function Print(list: seq<Subdomains>, explicit: seq<bool>): string
    requires |explicit| == |list|
  {
    TextOf(Entries(list, explicit), Commas(|list|))
  }

  lemma EntryMeans(p: Subdomains, explicit: bool)
    requires p.extent < WORD && p.count < WORD
    ensures Entry(p, explicit).Ok() && Entry(p, explicit).Meaning() == Ok(p)
  {
    ValueOfDecimal(p.extent);
    ValueOfDecimal(p.count);
    WrapSmall(p.extent);
    WrapSmall(p.count);
  }

  lemma PrintIsText(list: seq<Subdomains>, explicit: seq<bool>)
    requires |explicit| == |list|
    requires forall k :: 0 <= k < |list| ==> list[k].extent < WORD && list[k].count < WORD
    ensures var items := Entries(list, explicit);
            GapsOk(items, Commas(|list|)) && AllMean(items) && Meanings(items) == list
  {
    var items := Entries(list, explicit);
    forall k | 0 <= k < |list| ensures items[k].Ok() && items[k].Meaning() == Ok(list[k]) {
      EntryMeans(list[k], explicit[k]);
    }
  }

  /** Parsing undoes printing, whichever way single subdomains are written. */
  lemma ParseUndoesPrint(list: seq<Subdomains>, explicit: seq<bool>)
    requires |explicit| == |list|
    requires forall k :: 0 <= k < |list| ==> list[k].extent < WORD && list[k].count < WORD
    ensures ParseTokens(Tokens(Print(list, explicit))) == Ok(list)
  {
    PrintIsText(list, explicit);
    ParseText("", Entries(list, explicit), Commas(|list|));
    assert "" + Print(list, explicit) == Print(list, explicit);
  }
}
