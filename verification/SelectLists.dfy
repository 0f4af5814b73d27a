/**
 * A list of `NULL`s with the items' names, put where a grouped query's select
 * list was: how the list is found, taken apart and named (`AliasOf` and
 * `GroupedSelectList` of `bigquery-analyzer/complete.cc`).
 */
module SelectLists {
  import opened Basics
  import opened Chars
  import opened SqlTokens

  datatype Span = Span(start: nat, end: nat)

  datatype StandIn = StandIn(span: Span, text: string)

  const CLAUSES := ["SELECT", "FROM", "WHERE", "HAVING", "QUALIFY", "WINDOW", "ORDER", "LIMIT",
                    "JOIN", "ON", "USING", "UNION", "INTERSECT", "EXCEPT", "WITH"]

  predicate EndsClause(token: Token) {
    token.kind.Keyword? && token.text in CLAUSES
  }

  predicate HasAlias(item: seq<Token>) {
    && item != [] && item[|item| - 1].kind.Identifier?
    && (|item| == 1 || MayPrecedeAlias(item[|item| - 2]))
  }

  predicate MayPrecedeAlias(token: Token) {
    || Is(token, "AS") || Is(token, ".") || Is(token, ")") || Is(token, "END")
    || token.kind.Identifier? || token.kind.Value?
  }

  /** The name at an item's end, where what is before it lets it be one. */
  function AliasOf(item: seq<Token>): Option<string> {
    if HasAlias(item) then Some(item[|item| - 1].text) else None
  }

  /** An item is given a name: it is one, or has it after an `AS`, a dot, a value, another name, or what ends an expression. */
  ghost predicate IsNamed(item: seq<Token>, name: string) {
    || (exists last: Token :: item == [last] && IsName(last, name))
    || (exists before, previous: Token, last: Token ::
          item == before + [previous, last] && IsName(last, name) && Introduces(previous))
  }

  predicate IsName(token: Token, name: string) {
    token.kind == Identifier && token.text == name
  }

  predicate Introduces(token: Token) {
    match token.kind
    case Keyword => token.text in {"AS", ".", ")", "END"}
    case Comment => false
    case _ => true
  }

  lemma AliasIsTheName(item: seq<Token>, name: string)
    ensures AliasOf(item) == Some(name) <==> IsNamed(item, name)
  {
    var n := |item|;
    if AliasOf(item) == Some(name) {
      if n == 1 {
        assert item == [item[0]];
      } else {
        assert item == item[..n - 2] + [item[n - 2], item[n - 1]];
      }
    }
  }

  /**
   * What the items are called: one name or none for each, but for an empty item
   * after the last of several commas.
   */
  ghost predicate NamesOf(items: seq<seq<Token>>, names: seq<Option<string>>) {
    && items != []
    && |names| == (if |items| > 1 && items[|items| - 1] == [] then |items| - 1 else |items|)
    && forall k :: 0 <= k < |names| ==> IsNameOf(items[k], names[k])
  }

  ghost predicate IsNameOf(item: seq<Token>, name: Option<string>) {
    forall n: string :: name == Some(n) <==> IsNamed(item, n)
  }

  // ---- the list's items ----

  /** A comma within no parentheses of the list from `first` on. */
  predicate Separates(tokens: seq<Token>, first: nat, i: int)
    requires first <= i < |tokens|
  {
    Is(tokens[i], ",") && Closing(tokens, first, i) == 0
  }

  /** `at` is where the list `tokens[first..from]` has its separators, in order. */
  ghost predicate SeparatorsAt(tokens: seq<Token>, first: nat, from: nat, at: seq<nat>)
    requires first <= from <= |tokens|
  {
    && (forall k :: 0 <= k < |at| ==> first <= at[k] < from && Separates(tokens, first, at[k]))
    && (forall j, k :: 0 <= j < k < |at| ==> at[j] < at[k])
    && (forall i :: first <= i < from && Separates(tokens, first, i) ==> i in at)
  }

  ghost function ItemStart(first: nat, at: seq<nat>, k: nat): nat
    requires k <= |at|
  {
    if k == 0 then first else at[k - 1] + 1
  }

  ghost function ItemEnd(from: nat, at: seq<nat>, k: nat): nat
    requires k <= |at|
  {
    if k == |at| then from else at[k]
  }

  /** `items` is what is between the separators. */
  ghost predicate IsSplit(tokens: seq<Token>, first: nat, from: nat, at: seq<nat>, items: seq<seq<Token>>) {
    && first <= from <= |tokens| && SeparatorsAt(tokens, first, from, at) && |items| == |at| + 1
    && forall k :: 0 <= k < |items| ==>
         && ItemStart(first, at, k) <= ItemEnd(from, at, k) <= |tokens|
         && items[k] == tokens[ItemStart(first, at, k)..ItemEnd(from, at, k)]
  }

  /** Splits the list at its top-level commas. */
  method Split(tokens: seq<Token>, first: nat, from: nat) returns (items: seq<seq<Token>>)
    requires first <= from <= |tokens|
    ensures exists at :: IsSplit(tokens, first, from, at, items)
  {
    items := [[]];
    ghost var at: seq<nat> := [];
    var depth := 0;
    var i := first;
    while i < from
      invariant first <= i <= from
      invariant depth == -Closing(tokens, first, i)
      invariant IsSplit(tokens, first, i, at, items)
    {
      hide IsSplit;
      assert |items| == |at| + 1 by { ItemsCount(tokens, first, i, at, items); }
      ClosingAdds(tokens, first, i, i + 1);
      assert Closing(tokens, i, i + 1) == -Weight(tokens[i]);
      if Opens(tokens[i]) { depth := depth + 1; }
      if Closes(tokens[i]) { depth := depth - 1; }
      if depth == 0 && Is(tokens[i], ",") {
        SplitHere(tokens, first, i, at, items);
        items, at := items + [[]], at + [i];
      } else {
        NoSplitHere(tokens, first, i, at, items);
        items := items[..|items| - 1] + [items[|items| - 1] + [tokens[i]]];
      }
      i := i + 1;
    }
  }

  lemma ItemsCount(tokens: seq<Token>, first: nat, i: nat, at: seq<nat>, items: seq<seq<Token>>)
    requires IsSplit(tokens, first, i, at, items)
    ensures |items| == |at| + 1
  {}

  lemma SplitHere(tokens: seq<Token>, first: nat, i: nat, at: seq<nat>, items: seq<seq<Token>>)
    requires i < |tokens| && IsSplit(tokens, first, i, at, items) && Separates(tokens, first, i)
    ensures IsSplit(tokens, first, i + 1, at + [i], items + [[]])
  {
    hide Closing;
    var more := at + [i];
    assert more[|at|] == i;
    forall j | first <= j < i + 1 && Separates(tokens, first, j)
      ensures j in more
    {}
    forall k | 0 <= k <= |more|
      ensures ItemStart(first, more, k) <= ItemEnd(i + 1, more, k) <= |tokens|
      ensures (items + [[]])[k] == tokens[ItemStart(first, more, k)..ItemEnd(i + 1, more, k)]
    {
      if k < |items| {
        assert ItemStart(first, more, k) == ItemStart(first, at, k);
        assert ItemEnd(i + 1, more, k) == ItemEnd(i, at, k);
      }
    }
  }

  lemma NoSplitHere(tokens: seq<Token>, first: nat, i: nat, at: seq<nat>, items: seq<seq<Token>>)
    requires i < |tokens| && IsSplit(tokens, first, i, at, items) && !Separates(tokens, first, i)
    ensures IsSplit(tokens, first, i + 1, at, items[..|at|] + [items[|at|] + [tokens[i]]])
  {
    hide Closing;
    var more := items[..|at|] + [items[|at|] + [tokens[i]]];
    forall k | 0 <= k <= |at|
      ensures ItemStart(first, at, k) <= ItemEnd(i + 1, at, k) <= |tokens|
      ensures more[k] == tokens[ItemStart(first, at, k)..ItemEnd(i + 1, at, k)]
    {
      if k < |at| {
        assert ItemEnd(i + 1, at, k) == ItemEnd(i, at, k);
      }
    }
  }

  function Joined(items: seq<seq<Token>>, commas: seq<Token>): seq<Token>
    requires |items| == |commas| + 1
  {
    if commas == [] then items[0]
    else Joined(items[..|items| - 1], commas[..|commas| - 1]) + [commas[|commas| - 1]] + items[|items| - 1]
  }

  /** Nothing is lost: the items with the separators between them are the list. */
  lemma {:induction false} ItemsMakeTheList(tokens: seq<Token>, first: nat, from: nat, at: seq<nat>,
                                            items: seq<seq<Token>>, commas: seq<Token>)
    requires IsSplit(tokens, first, from, at, items)
    requires |commas| == |at| && forall k :: 0 <= k < |at| ==> commas[k] == tokens[at[k]]
    ensures Joined(items, commas) == tokens[first..from]
    decreases |at|
  {
    hide IsSplit;
    if at == [] {
      OnlyItem(tokens, first, from, items);
    } else {
      var n := |at| - 1;
      var comma := at[n];
      LastItem(tokens, first, from, at, items);
      Earlier(tokens, first, from, at, items);
      ItemsMakeTheList(tokens, first, comma, at[..n], items[..n + 1], commas[..n]);
      assert tokens[first..comma] + [tokens[comma]] + tokens[comma + 1..from] == tokens[first..from];
    }
  }

  lemma OnlyItem(tokens: seq<Token>, first: nat, from: nat, items: seq<seq<Token>>)
    requires IsSplit(tokens, first, from, [], items)
    ensures first <= from <= |tokens| && items == [tokens[first..from]]
  {}

  lemma LastItem(tokens: seq<Token>, first: nat, from: nat, at: seq<nat>, items: seq<seq<Token>>)
    requires at != [] && IsSplit(tokens, first, from, at, items)
    ensures first <= at[|at| - 1] < from <= |tokens| && |items| == |at| + 1
    ensures items[|at|] == tokens[at[|at| - 1] + 1..from]
  {
    hide Closing;
  }

  lemma Earlier(tokens: seq<Token>, first: nat, from: nat, at: seq<nat>, items: seq<seq<Token>>)
    requires at != [] && IsSplit(tokens, first, from, at, items)
    ensures IsSplit(tokens, first, at[|at| - 1], at[..|at| - 1], items[..|at|])
  {
    hide Closing;
    var n := |at| - 1;
    var before := at[..n];
    forall i | first <= i < at[n] && Separates(tokens, first, i)
      ensures i in before
    {
      var k :| 0 <= k < |at| && at[k] == i;
      assert before[k] == i;
    }
    forall k | 0 <= k <= n
      ensures ItemStart(first, before, k) <= ItemEnd(at[n], before, k) <= |tokens|
      ensures items[k] == tokens[ItemStart(first, before, k)..ItemEnd(at[n], before, k)]
    {
      assert ItemStart(first, before, k) == ItemStart(first, at, k);
      assert ItemEnd(at[n], before, k) == ItemEnd(from, at, k);
    }
  }

  /** An item does not split again. */
  lemma ItemsAreWhole(tokens: seq<Token>, first: nat, from: nat, at: seq<nat>, items: seq<seq<Token>>, k: nat, i: nat)
    requires IsSplit(tokens, first, from, at, items) && k < |items|
    requires ItemStart(first, at, k) <= i < ItemEnd(from, at, k)
    ensures !Separates(tokens, ItemStart(first, at, k), i)
  {
    var start := ItemStart(first, at, k);
    ClosingAdds(tokens, first, start, i);
    if k > 0 {
      ClosingAdds(tokens, first, at[k - 1], start);
      assert Closing(tokens, at[k - 1], start) == 0;
    }
    assert Closing(tokens, first, start) == 0;
    forall m | 0 <= m < |at|
      ensures at[m] != i
    {
      assert k > 0 && m < k ==> at[m] <= at[k - 1];
      assert m >= k ==> at[k] <= at[m];
    }
    assert !Separates(tokens, first, i);
  }

  // ---- what stands in for it ----

  function Entry(alias: Option<string>): string {
    if alias.Some? then "NULL AS `" + alias.value + "`" else "NULL"
  }

  function Entries(aliases: seq<Option<string>>): string {
    if aliases == [] then ""
    else if |aliases| == 1 then Entry(aliases[0])
    else Entry(aliases[0]) + ", " + Entries(aliases[1..])
  }

  function Aliases(items: seq<seq<Token>>): (aliases: seq<Option<string>>)
    ensures |aliases| == |items|
    ensures forall k :: 0 <= k < |items| ==> aliases[k] == AliasOf(items[k])
  {
    seq(|items|, k requires 0 <= k < |items| => AliasOf(items[k]))
  }

  /** One entry per item, but for the empty one after a trailing comma. */
  function Kept(items: seq<seq<Token>>): seq<seq<Token>> {
    if |items| > 1 && items[|items| - 1] == [] then items[..|items| - 1] else items
  }

  lemma KeptAreNamed(items: seq<seq<Token>>)
    requires items != []
    ensures NamesOf(items, Aliases(Kept(items)))
  {
    hide IsNamed, AliasOf;
    var names := Aliases(Kept(items));
    forall k | 0 <= k < |names|
      ensures IsNameOf(items[k], names[k])
    {
      assert Kept(items)[k] == items[k];
      forall n: string
        ensures names[k] == Some(n) <==> IsNamed(items[k], n)
      {
        AliasIsTheName(items[k], n);
      }
    }
  }

  /** An escape after a backslash: what it stands for, and how much is taken by it. */
  datatype Escaped = Escaped(text: string, taken: nat)

  type Escapes = string -> Option<Escaped>

  /** No escape stands for more than it takes, and a quote is escaped alone. */
  ghost predicate Escaping(escapes: Escapes) {
    forall s: string :: escapes(s).Some? ==> IsEscape(s, escapes(s).value)
  }

  predicate IsEscape(s: string, e: Escaped) {
    && 1 <= e.taken <= |s| && |e.text| <= e.taken
    && (forall k :: 0 <= k < e.taken && s[k] == '`' ==> e.taken == 1)
  }

  datatype Named = Named(name: string, rest: string)

  /** Reads a name up to the backquote that ends it, on its line. */
  function ReadName(s: string, escapes: Escapes): (named: Option<Named>)
    ensures named.Some? ==> |named.value.rest| < |s|
    decreases |s|
  {
    if s == "" then None
    else if s[0] == '`' then Some(Named("", s[1..]))
    else if s[0] in {'\n', '\r'} then None
    else if s[0] != '\\' then After([s[0]], ReadName(s[1..], escapes))
    else
      var e := escapes(s[1..]);
      if e.None? || e.value.taken > |s| - 1 then None else After(e.value.text, ReadName(s[1 + e.value.taken..], escapes))
  }

  function After(text: string, named: Option<Named>): Option<Named> {
    if named.None? then None else Some(Named(text + named.value.name, named.value.rest))
  }

  /** Reads a list of `NULL`s back, each with the name after it if it has one. */
  function ReadEntries(s: string, escapes: Escapes): (names: Option<seq<Option<string>>>)
    ensures names.Some? ==> names.value != []
    decreases |s|
  {
    if !StartsWith(s, "NULL", 0) then None
    else
      var rest := s[4..];
      if !StartsWith(rest, " AS `", 0) then ReadAfter(None, rest, escapes)
      else
        var named := ReadName(rest[5..], escapes);
        if named.None? then None else ReadAfter(Some(named.value.name), named.value.rest, escapes)
  }

  function ReadAfter(name: Option<string>, rest: string, escapes: Escapes): (names: Option<seq<Option<string>>>)
    ensures names.Some? ==> names.value != [] && names.value[0] == name
    decreases |rest|
  {
    if rest == " " then Some([name])
    else if !StartsWith(rest, ", ", 0) then None
    else
      var more := ReadEntries(rest[2..], escapes);
      if more.None? then None else Some([name] + more.value)
  }

  predicate Plain(name: Option<string>) {
    name.Some? ==> '`' !in name.value && '\\' !in name.value && '\n' !in name.value && '\r' !in name.value
  }

  /** A text with a backquote has no backslash before its first, and a blank right before it. */
  predicate QuotesAfterBlank(rest: string)
    decreases |rest|
  {
    || rest == ""
    || (rest[0] != '`' && rest[0] != '\\'
        && ((|rest| > 1 && rest[1] == '`' && rest[0] == ' ') || QuotesAfterBlank(rest[1..])))
  }

  lemma {:induction false} ReadsToABlank(rest: string, escapes: Escapes)
    requires QuotesAfterBlank(rest) && ReadName(rest, escapes).Some?
    ensures var name := ReadName(rest, escapes).value.name; name != "" && name[|name| - 1] == ' '
    decreases |rest|
  {
    if |rest| > 1 && rest[1] == '`' && rest[0] == ' ' {
      assert ReadName(rest[1..], escapes).value.name == "";
    } else {
      ReadsToABlank(rest[1..], escapes);
    }
  }

  /** What is read where `name` was written: just that, plain; or too little; or on over its quote, up to a blank. */
  predicate ReadFor(name: string, rest: string, read: Option<Named>) {
    read.Some? ==>
      || (read.value == Named(name, rest) && Plain(Some(name)))
      || |read.value.name| < |name|
      || (EndsIn(name, '\\') && EndsIn(read.value.name, ' '))
  }

  predicate EndsIn(s: string, c: char) {
    s != "" && s[|s| - 1] == c
  }

  lemma ReadForMore(name: string, k: nat, rest: string, text: string, read: Option<Named>)
    requires 1 <= k <= |name| && ReadFor(name[k..], rest, read)
    requires |text| < k || (k == 1 && text == [name[0]] && Plain(Some(text)))
    ensures ReadFor(name, rest, After(text, read))
  {
    assert name == name[..k] + name[k..];
  }

  lemma {:induction false} NameRead(name: string, rest: string, escapes: Escapes)
    requires Escaping(escapes) && QuotesAfterBlank(rest)
    ensures ReadFor(name, rest, ReadName(name + ("`" + rest), escapes))
    decreases |name|
  {
    hide Escaping, QuotesAfterBlank, After;
    var s := name + ("`" + rest);
    if name == "" {
      assert s[1..] == rest;
    } else if name[0] == '\\' {
      hide ReadName;
      EscapedNameRead(name, rest, escapes);
      var e := escapes(s[1..]);
      if |name| > 1 && e.Some? && 1 <= e.value.taken < |name| && |e.value.text| <= e.value.taken {
        var k := 1 + e.value.taken;
        assert s[k..] == name[k..] + ("`" + rest);
        NameRead(name[k..], rest, escapes);
        ReadForMore(name, k, rest, e.value.text, ReadName(s[k..], escapes));
      }
    } else if name[0] !in {'`', '\n', '\r'} {
      assert s[1..] == name[1..] + ("`" + rest);
      NameRead(name[1..], rest, escapes);
      ReadForMore(name, 1, rest, [name[0]], ReadName(s[1..], escapes));
    }
  }

  /** An escape leaves the name too short, unless it takes the quote that was to end it. */
  lemma EscapedNameRead(name: string, rest: string, escapes: Escapes)
    requires name != "" && name[0] == '\\' && Escaping(escapes) && QuotesAfterBlank(rest)
    ensures var s := name + ("`" + rest);
      var e := escapes(s[1..]);
      ReadName(s, escapes).Some? ==>
        && e.Some? && e.value.taken >= 1 && |e.value.text| <= e.value.taken
        && if |name| == 1 then EndsIn(ReadName(s, escapes).value.name, ' ')
           else e.value.taken < |name| && 1 + e.value.taken <= |s|
                && ReadName(s, escapes) == After(e.value.text, ReadName(s[1 + e.value.taken..], escapes))
  {
    var s := name + ("`" + rest);
    if ReadName(s, escapes).Some? {
      var e := escapes(s[1..]).value;
      assert IsEscape(s[1..], e);
      if |name| == 1 {
        assert s[1..][0] == '`';
        assert s[2..] == rest;
        ReadsToABlank(rest, escapes);
      } else {
        assert s[1..][|name| - 1] == '`';
      }
    }
  }

  lemma {:induction false} PlainNameReads(name: string, rest: string, escapes: Escapes)
    requires Plain(Some(name))
    ensures ReadName(name + ("`" + rest), escapes) == Some(Named(name, rest))
  {
    var s := name + ("`" + rest);
    if name == "" {
      assert s[1..] == rest;
    } else {
      assert s[1..] == name[1..] + ("`" + rest);
      PlainNameReads(name[1..], rest, escapes);
      assert name == [name[0]] + name[1..];
    }
  }

  lemma UnnamedEntryReads(rest: string, escapes: Escapes)
    requires StartsWith(rest, ", ", 0) || rest == " "
    ensures ReadEntries("NULL" + rest, escapes) == ReadAfter(None, rest, escapes)
  {
    hide ReadAfter, ReadName;
    assert ("NULL" + rest)[4..] == rest;
    assert rest == " " || rest[0] == rest[..2][0] == ',';
    assert |rest| >= 5 ==> rest[..5][0] == rest[0] != ' ';
  }

  lemma NamedEntryReads(quoted: string, escapes: Escapes)
    ensures ReadEntries("NULL AS `" + quoted, escapes)
            == var named := ReadName(quoted, escapes);
               if named.None? then None else ReadAfter(Some(named.value.name), named.value.rest, escapes)
  {
    hide ReadAfter, ReadName;
    var s := "NULL AS `" + quoted;
    assert s[4..] == " AS `" + quoted;
    assert s[4..][5..] == quoted;
  }

  /** A plain name's entry is read as it was written; any other never is. */
  lemma EntryReads(alias: Option<string>, rest: string, escapes: Escapes)
    requires Escaping(escapes) && QuotesAfterBlank(rest) && (StartsWith(rest, ", ", 0) || rest == " ")
    ensures Plain(alias) ==> ReadEntries(Entry(alias) + rest, escapes) == ReadAfter(alias, rest, escapes)
    ensures !Plain(alias) && ReadEntries(Entry(alias) + rest, escapes).Some? ==>
              ReadEntries(Entry(alias) + rest, escapes).value[0] != alias
  {
    hide ReadEntries, ReadName, Escaping;
    if alias.Some? {
      var quoted := alias.value + ("`" + rest);
      assert Entry(alias) + rest == "NULL AS `" + quoted;
      NamedEntryReads(quoted, escapes);
      NameRead(alias.value, rest, escapes);
      if Plain(alias) {
        PlainNameReads(alias.value, rest, escapes);
      }
    } else {
      UnnamedEntryReads(rest, escapes);
    }
  }

  lemma EntryQuotesAfterBlank(alias: Option<string>, rest: string)
    requires QuotesAfterBlank(rest)
    ensures QuotesAfterBlank(Entry(alias) + rest)
  {
    hide QuotesAfterBlank;
    if alias.Some? {
      var s := " `" + (alias.value + "`" + rest);
      BlankThenQuote(s);
      Skips("NULL AS", s);
      assert Entry(alias) + rest == "NULL AS" + s;
    } else {
      Skips("NULL", rest);
    }
  }

  lemma BlankThenQuote(s: string)
    requires |s| > 1 && s[0] == ' ' && s[1] == '`'
    ensures QuotesAfterBlank(s)
  {}

  lemma BlankHasNoQuote()
    ensures QuotesAfterBlank(" ")
  {}

  lemma {:induction false} EntriesQuoteAfterBlank(aliases: seq<Option<string>>)
    requires aliases != []
    ensures QuotesAfterBlank(Entries(aliases) + " ")
    ensures QuotesAfterBlank(", " + (Entries(aliases) + " "))
  {
    hide QuotesAfterBlank, Entry;
    if |aliases| == 1 {
      BlankHasNoQuote();
      EntryQuotesAfterBlank(aliases[0], " ");
    } else {
      var rest := ", " + (Entries(aliases[1..]) + " ");
      EntriesQuoteAfterBlank(aliases[1..]);
      EntryQuotesAfterBlank(aliases[0], rest);
      assert Entries(aliases) + " " == Entry(aliases[0]) + rest;
    }
    Skips(", ", Entries(aliases) + " ");
  }

  lemma {:induction false} Skips(before: string, rest: string)
    requires '`' !in before && '\\' !in before && QuotesAfterBlank(rest)
    ensures QuotesAfterBlank(before + rest)
  {
    if before == "" {
      assert before + rest == rest;
    } else {
      assert (before + rest)[1..] == before[1..] + rest;
      Skips(before[1..], rest);
    }
  }

  /**
   * The stand-in names the same positions by the same names exactly when no
   * name holds a backquote, a backslash or a line break, which are written as
   * they are: whatever escapes the one who reads them back undoes.
   */
  lemma {:induction false} NamesSurvive(aliases: seq<Option<string>>, escapes: Escapes)
    requires aliases != [] && Escaping(escapes)
    ensures ReadEntries(Entries(aliases) + " ", escapes) == Some(aliases)
            <==> forall k :: 0 <= k < |aliases| ==> Plain(aliases[k])
  {
    hide ReadEntries, QuotesAfterBlank, Entry, Plain, Escaping;
    assert aliases == [aliases[0]] + aliases[1..];
    if |aliases| == 1 {
      assert aliases == [aliases[0]];
      BlankHasNoQuote();
      EntryReads(aliases[0], " ", escapes);
    } else {
      var rest := ", " + (Entries(aliases[1..]) + " ");
      assert Entries(aliases) + " " == Entry(aliases[0]) + rest;
      EntriesQuoteAfterBlank(aliases[1..]);
      EntryReads(aliases[0], rest, escapes);
      assert rest[2..] == Entries(aliases[1..]) + " ";
      NamesSurvive(aliases[1..], escapes);
    }
  }

  /** Names no reader is given: one that ends too soon, one that swallows what is after it, and one in two lines. */
  lemma NamesThatAreLost(escapes: Escapes)
    requires Escaping(escapes)
    ensures ReadEntries(Entries([Some("a`b")]) + " ", escapes) == None
    ensures ReadEntries(Entries([Some("\\")]) + " ", escapes) == None
    ensures ReadEntries(Entries([Some("\n")]) + " ", escapes) == None
  {
    hide ReadEntries, ReadName;
    assert Entries([Some("a`b")]) + " " == "NULL AS `" + ("a" + ("`" + "b` "));
    NamedEntryReads("a" + ("`" + "b` "), escapes);
    PlainNameReads("a", "b` ", escapes);
    assert "b` "[..2][0] == 'b';
    assert Entries([Some("\\")]) + " " == "NULL AS `" + "\\` ";
    NamedEntryReads("\\` ", escapes);
    EscapeAlone(escapes);
    assert Entries([Some("\n")]) + " " == "NULL AS `" + "\n` ";
    NamedEntryReads("\n` ", escapes);
    LineEndsName(escapes);
  }

  lemma LineEndsName(escapes: Escapes)
    ensures ReadName("\n` ", escapes) == None
  {}

  lemma EscapeAlone(escapes: Escapes)
    requires Escaping(escapes)
    ensures ReadName("\\` ", escapes) == None
  {
    var s := "\\` ";
    assert s[1..] == "` " && s[2..] == " " && " "[1..] == "";
    var e := escapes("` ");
    if e.Some? {
      assert IsEscape("` ", e.value) && "` "[0] == '`';
    }
  }

  // ---- finding the list ----

  function AtByOrClause(tokens: seq<Token>): int -> bool {
    i => 0 <= i < |tokens| && (Is(tokens[i], "BY") || EndsClause(tokens[i]))
  }

  function AtFromOrSelect(tokens: seq<Token>): int -> bool {
    i => 0 <= i < |tokens| && (Is(tokens[i], "FROM") || Is(tokens[i], "SELECT"))
  }

  function AtSelect(tokens: seq<Token>): int -> bool {
    i => 0 <= i < |tokens| && Is(tokens[i], "SELECT")
  }

  /**
   * The `GROUP BY` clause `tokens[before]` is in has its `BY` at `word`, and its
   * query its `FROM` and its `SELECT` at `from` and `select`.
   */
  ghost predicate GroupedBy(tokens: seq<Token>, before: int, word: int, from: int, select: int) {
    && 1 <= word <= before < |tokens| && Nearest(tokens, AtByOrClause(tokens), word, before + 1)
    && Is(tokens[word], "BY") && Is(tokens[word - 1], "GROUP")
    && 0 <= from < word && Nearest(tokens, AtFromOrSelect(tokens), from, word - 1) && Is(tokens[from], "FROM")
    && 0 <= select < from && Nearest(tokens, AtSelect(tokens), select, from)
  }

  predicate ChoosesRows(token: Token) {
    Is(token, "DISTINCT") || Is(token, "ALL")
  }

  /** The list starts at `first`, past the `DISTINCT`s and `ALL`s after its `SELECT`. */
  ghost predicate ListStart(tokens: seq<Token>, select: nat, first: nat, from: nat) {
    && select < first <= from <= |tokens|
    && (forall i :: select < i < first ==> ChoosesRows(tokens[i]))
    && (first < from ==> !ChoosesRows(tokens[first]))
  }

  /** The list of that `SELECT` has those names for its items. */
  ghost predicate Lists(tokens: seq<Token>, select: nat, from: nat, names: seq<Option<string>>) {
    exists first: nat, at: seq<nat>, items: seq<seq<Token>> ::
      ListStart(tokens, select, first, from) && IsSplit(tokens, first, from, at, items) && NamesOf(items, names)
  }

  /** What stands in for the list of that `SELECT`. */
  ghost predicate StandsIn(tokens: seq<Token>, select: nat, from: nat, standIn: StandIn) {
    && select < from < |tokens| && standIn.span == Span(tokens[select].end, tokens[from].start)
    && exists names :: Lists(tokens, select, from, names) && standIn.text == " " + (Entries(names) + " ")
  }

  /** Walks back from `before` to the clause, its `FROM` and its `SELECT`, and writes the list of `NULL`s. */
  method GroupedSelectList(tokens: seq<Token>, before: int) returns (standIn: Option<StandIn>)
    requires -1 <= before < |tokens|
    ensures standIn.Some? ==> exists word, from, select ::
      GroupedBy(tokens, before, word, from, select) && StandsIn(tokens, select, from, standIn.value)
    ensures standIn.None? ==> forall word, from, select :: !GroupedBy(tokens, before, word, from, select)
  {
    hide Sought, NoneAfter, SeparatorsAt;
    var word := Back(tokens, before, AtByOrClause(tokens));
    BeforeIsUnique(tokens, AtByOrClause(tokens), word, before + 1);
    if word < 1 || !Is(tokens[word], "BY") || !Is(tokens[word - 1], "GROUP") {
      return None;
    }
    var from := Back(tokens, word - 2, AtFromOrSelect(tokens));
    BeforeIsUnique(tokens, AtFromOrSelect(tokens), from, word - 1);
    if from < 0 || !Is(tokens[from], "FROM") {
      return None;
    }
    var select := Back(tokens, from - 1, AtSelect(tokens));
    BeforeIsUnique(tokens, AtSelect(tokens), select, from);
    if select < 0 {
      return None;
    }
    assert GroupedBy(tokens, before, word, from, select);
    var first := select + 1;
    while first < from && ChoosesRows(tokens[first])
      invariant select < first <= from
      invariant forall i :: select < i < first ==> ChoosesRows(tokens[i])
    {
      first := first + 1;
    }
    var items := Split(tokens, first, from);
    assert ListStart(tokens, select, first, from);
    standIn := Some(StandIn(Span(tokens[select].end, tokens[from].start),
                            " " + (Entries(Aliases(Kept(items))) + " ")));
    KeptAreNamed(items);
    assert Lists(tokens, select, from, Aliases(Kept(items)));
    assert StandsIn(tokens, select, from, standIn.value);
  }

  lemma BeforeIsUnique(tokens: seq<Token>, stop: int -> bool, found: int, until: int)
    requires Nearest(tokens, stop, found, until) && until <= |tokens|
    ensures found < until || found == -1
    ensures forall i :: Nearest(tokens, stop, i, until) ==> i == found
  {}

  /**
   * The stand-in has an entry for each item, at the item's position and under
   * its name, exactly when no name holds a backquote, a backslash or a line break.
   */
  lemma StandInKeepsNames(tokens: seq<Token>, select: nat, from: nat, standIn: StandIn, escapes: Escapes)
    requires StandsIn(tokens, select, from, standIn) && Escaping(escapes)
    ensures exists names :: Lists(tokens, select, from, names) && ReadsBack(standIn.text, names, escapes)
  {
    var names :| Lists(tokens, select, from, names) && standIn.text == " " + (Entries(names) + " ");
    assert standIn.text[1..] == Entries(names) + " ";
    SomeAreNamed(tokens, select, from, names);
    NamesSurvive(names, escapes);
  }

  ghost predicate ReadsBack(text: string, names: seq<Option<string>>, escapes: Escapes) {
    && text != "" && text[0] == ' '
    && (ReadEntries(text[1..], escapes) == Some(names) <==> forall k :: 0 <= k < |names| ==> Plain(names[k]))
  }

  lemma SomeAreNamed(tokens: seq<Token>, select: nat, from: nat, names: seq<Option<string>>)
    requires Lists(tokens, select, from, names)
    ensures names != []
  {}
}
