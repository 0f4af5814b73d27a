/**
 * Cutting a half-written statement and closing it again (`Endings` and `Tail`
 * of `bigquery-analyzer/complete.cc`): what the cuts and the endings made from
 * them keep of the statement, and whether its parentheses come out even.
 */
module StatementEndings {
  import opened Basics
  import opened SqlTokens
  import opened SelectLists
  import opened Locating

  /** A cut to stop at, and whether a `NULL` is put there. */
  datatype Ending = Ending(cut: Cut, withNull: bool)

  /** The endings a cut gives, none where more is closed than was opened. */
  function EndingsAt(cut: Cut): seq<Ending> {
    if cut.open < 0 then []
    else if cut.afterDot then [Ending(cut, false)]
    else [Ending(cut, false), Ending(cut, true)]
  }

  /** The endings of the cuts, the last cut's first. */
  function EndingsOf(cuts: seq<Cut>): seq<Ending> {
    if cuts == [] then [] else EndingsAt(cuts[|cuts| - 1]) + EndingsOf(cuts[..|cuts| - 1])
  }

  lemma EndingsOfOneMore(cuts: seq<Cut>, i: nat)
    requires i < |cuts|
    ensures EndingsOf(cuts[..i + 1]) == EndingsAt(cuts[i]) + EndingsOf(cuts[..i])
  {
    assert cuts[..i + 1][..i] == cuts[..i];
  }

  method FindEndings(cuts: seq<Cut>) returns (endings: seq<Ending>)
    ensures endings == EndingsOf(cuts)
  {
    endings := [];
    var i := |cuts|;
    assert cuts[..i] == cuts;
    ghost var left := EndingsOf(cuts);
    while i > 0
      invariant 0 <= i <= |cuts|
      invariant left == EndingsOf(cuts[..i])
      invariant endings + left == EndingsOf(cuts)
    {
      hide EndingsOf;
      i := i - 1;
      var cut := cuts[i];
      EndingsOfOneMore(cuts, i);
      ghost var before := endings;
      left := EndingsOf(cuts[..i]);
      if cut.open >= 0 {
        endings := endings + [Ending(cut, false)];
        if !cut.afterDot {
          Associates(before, [Ending(cut, false)], [Ending(cut, true)]);
          endings := endings + [Ending(cut, true)];
        }
      }
      assert endings == before + EndingsAt(cut);
      Associates(before, EndingsAt(cut), left);
    }
  }

  function Repeat(c: char, n: nat): string {
    if n == 0 then "" else [c] + Repeat(c, n - 1)
  }

  /** What an ending puts after what it keeps: a `NULL`, and the parentheses that are open. */
  function Added(ending: Ending): string
    requires ending.cut.open >= 0
  {
    (if ending.withNull then "\nNULL" else "")
    + (if ending.cut.open == 0 then "" else "\n" + Repeat(')', ending.cut.open))
  }

  /** What follows the probe. */
  function Tail(text: string, from: nat, ending: Ending): string
    requires from <= ending.cut.at <= |text| && ending.cut.open >= 0
  {
    text[from..ending.cut.at] + Added(ending)
  }

  predicate AllAre(text: string, c: char) {
    forall d <- text :: d == c
  }

  lemma {:induction false} RepeatIs(c: char, n: nat)
    ensures |Repeat(c, n)| == n && AllAre(Repeat(c, n), c)
  {
    if n > 0 {
      RepeatIs(c, n - 1);
    }
  }

  /**
   * After what it keeps, an ending has lines of their own: `NULL` just where it
   * is asked for, and as many closing parentheses as are open, where any are.
   */
  lemma TailIsInLines(text: string, from: nat, ending: Ending) returns (closers: string)
    requires from <= ending.cut.at <= |text| && ending.cut.open >= 0
    ensures |closers| == ending.cut.open && AllAre(closers, ')')
    ensures Tail(text, from, ending) == text[from..ending.cut.at]
            + (if ending.withNull && closers != "" then "\nNULL\n" + closers
               else if ending.withNull then "\nNULL"
               else if closers != "" then "\n" + closers
               else "")
  {
    closers := Repeat(')', ending.cut.open);
    RepeatIs(')', ending.cut.open);
    assert "\nNULL" + ("\n" + closers) == "\nNULL\n" + closers;
    assert "\nNULL" + "" == "\nNULL";
    assert "" + ("\n" + closers) == "\n" + closers;
  }

  // ---- what the cuts are ----

  /** A cut keeps the statement up to a token that is not within a dotted name, or all of it. */
  ghost predicate KeepsNames(tokens: seq<Token>, place: Place, cut: Cut) {
    || (exists j :: 0 <= j < |tokens| && CutBefore(tokens, place, cut, j))
    || cut == Cut(place.statement.end, -Closing(tokens, 0, |tokens|), JoinsName(tokens, |tokens| - 1, place.replace.end))
  }

  ghost predicate CutBefore(tokens: seq<Token>, place: Place, cut: Cut, j: nat)
    requires j < |tokens|
  {
    && cut == Cut(tokens[j].start, -Closing(tokens, 0, j), false) && cut.at >= place.replace.end
    && !Is(tokens[j], ".") && !(j > 0 && Is(tokens[j - 1], ".") && tokens[j - 1].start >= place.replace.end)
  }

  ghost predicate Ascending(cuts: seq<Cut>) {
    forall i, j :: 0 <= i < j < |cuts| ==> cuts[i].at < cuts[j].at
  }

  lemma {:induction false} CutsAre(tokens: seq<Token>, n: nat, size: nat, place: Place)
    requires WellFormed(tokens, size) && n <= |tokens|
    ensures forall c :: c in CutsBefore(tokens, n, place.replace.end) <==>
                        exists j :: 0 <= j < n && CutBefore(tokens, place, c, j)
    ensures Ascending(CutsBefore(tokens, n, place.replace.end))
    ensures forall c :: c in CutsBefore(tokens, n, place.replace.end) ==> n > 0 && c.at <= tokens[n - 1].start
  {
    hide Closing;
    if n > 0 {
      CutsAre(tokens, n - 1, size, place);
      var before := CutsBefore(tokens, n - 1, place.replace.end);
      var cuts := CutsBefore(tokens, n, place.replace.end);
      forall c | c in cuts
        ensures c.at <= tokens[n - 1].start
        ensures exists j :: 0 <= j < n && CutBefore(tokens, place, c, j)
      {
        if c in before {
          var j :| 0 <= j < n - 1 && CutBefore(tokens, place, c, j);
        } else {
          assert CutBefore(tokens, place, c, n - 1);
        }
      }
      forall c | exists j :: 0 <= j < n && CutBefore(tokens, place, c, j)
        ensures c in cuts
      {
        var j :| 0 <= j < n && CutBefore(tokens, place, c, j);
        if j == n - 1 {
          assert Cuttable(tokens, n - 1, place.replace.end);
        }
      }
      forall i, j | 0 <= i < j < |cuts|
        ensures cuts[i].at < cuts[j].at
      {
        if j == |before| {
          assert before[i] in before;
        }
      }
    }
  }

  lemma PlaceCuts(tokens: seq<Token>, size: nat, cursor: nat, place: Place, last: int, before: int)
    requires WellFormed(tokens, size) && IsPlace(tokens, cursor, place, last, before)
    requires forall t :: t in tokens ==> place.statement.start <= t.start < t.end <= place.statement.end
    ensures place.cuts != [] && Ascending(place.cuts)
    ensures forall c :: c in place.cuts ==> KeepsNames(tokens, place, c)
    ensures forall j, c :: 0 <= j < |tokens| && CutBefore(tokens, place, c, j) ==> c in place.cuts
  {
    hide Closing, Dotted, SelectListFor, IsMember, NameAndDot, IsLast, WellFormed;
    CutsAre(tokens, |tokens|, size, place);
    var before := CutsBefore(tokens, |tokens|, place.replace.end);
    forall i, j | 0 <= i < j < |place.cuts|
      ensures place.cuts[i].at < place.cuts[j].at
    {
      assert before[i] in before;
      assert tokens[|tokens| - 1] in tokens;
    }
    forall c | c in place.cuts
      ensures KeepsNames(tokens, place, c)
    {
      if c in before {
        var j :| 0 <= j < |tokens| && CutBefore(tokens, place, c, j);
      }
    }
  }

  // ---- what the endings are ----

  /** Each ending keeps no more than the one before it, and less unless only a `NULL` is added. */
  ghost predicate KeepsLess(endings: seq<Ending>) {
    forall i, j :: 0 <= i < j < |endings| ==> Less(endings[i], endings[j])
  }

  predicate Less(a: Ending, b: Ending) {
    b.cut.at < a.cut.at || (b.cut == a.cut && !a.withNull && b.withNull)
  }

  predicate IsEndingOf(e: Ending, cuts: seq<Cut>) {
    e.cut in cuts && e.cut.open >= 0 && (e.withNull ==> !e.cut.afterDot)
  }

  /** The endings are in order of length, and are just those the cuts give. */
  lemma {:induction false} EndingsKeepLess(cuts: seq<Cut>)
    requires Ascending(cuts)
    ensures KeepsLess(EndingsOf(cuts))
    ensures forall e :: e in EndingsOf(cuts) <==> IsEndingOf(e, cuts)
  {
    if cuts != [] {
      var n := |cuts| - 1;
      EndingsKeepLess(cuts[..n]);
      var mine, rest := EndingsAt(cuts[n]), EndingsOf(cuts[..n]);
      forall e: Ending
        ensures e in mine + rest <==> IsEndingOf(e, cuts)
      {
        assert e.cut in cuts <==> e.cut == cuts[n] || e.cut in cuts[..n];
      }
      forall i, j | 0 <= i < j < |mine + rest|
        ensures Less((mine + rest)[i], (mine + rest)[j])
      {
        if i < |mine| <= j {
          assert rest[j - |mine|] in rest;
          EarlierIsLess(cuts, rest[j - |mine|].cut);
        }
      }
    }
  }

  lemma EarlierIsLess(cuts: seq<Cut>, cut: Cut)
    requires Ascending(cuts) && cuts != [] && cut in cuts[..|cuts| - 1]
    ensures cut.at < cuts[|cuts| - 1].at
  {}

  // ---- whether the parentheses come out even ----

  /** What a text adds to the parentheses open, those in backquotes aside. */
  function TextWeight(s: string, quoted: bool): int
    decreases |s|
  {
    if s == "" then 0
    else if quoted && s[0] == '\\' then (if |s| == 1 then 0 else TextWeight(s[2..], true))
    else if s[0] == '`' then TextWeight(s[1..], !quoted)
    else CharWeight(s[0], quoted) + TextWeight(s[1..], quoted)
  }

  function CharWeight(c: char, quoted: bool): int {
    if quoted then 0 else if c == '(' then 1 else if c == ')' then -1 else 0
  }

  lemma {:induction false} TextsWeigh(a: string, b: string)
    requires '`' !in a
    ensures TextWeight(a + b, false) == TextWeight(a, false) + TextWeight(b, false)
  {
    if a == "" {
      assert a + b == b;
    } else {
      assert (a + b)[1..] == a[1..] + b;
      TextsWeigh(a[1..], b);
    }
  }

  lemma {:induction false} RepeatWeighs(n: nat)
    ensures TextWeight(Repeat(')', n), false) + n == 0
  {
    if n > 0 {
      assert Repeat(')', n)[1..] == Repeat(')', n - 1);
      RepeatWeighs(n - 1);
    }
  }

  /** What an ending adds closes just what is open at its cut. */
  lemma AddedCloses(e: Ending)
    requires e.cut.open >= 0
    ensures TextWeight(Added(e), false) == -e.cut.open
  {
    hide TextWeight;
    var operand := if e.withNull then "\nNULL" else "";
    var closers := if e.cut.open == 0 then "" else "\n" + Repeat(')', e.cut.open);
    Weightless("");
    Weightless("\n");
    Weightless("\nNULL");
    TextsWeigh(operand, closers);
    TextsWeigh("\n", Repeat(')', e.cut.open));
    RepeatWeighs(e.cut.open);
  }

  lemma {:induction false} Weightless(s: string)
    requires '`' !in s && '(' !in s && ')' !in s
    ensures TextWeight(s, false) == 0
  {
    if s != "" {
      Weightless(s[1..]);
    }
  }

  lemma {:induction false} QuotedWeighs(name: string, rest: string)
    requires Plain(Some(name))
    ensures TextWeight(name + ("`" + rest), true) == TextWeight(rest, false)
  {
    var s := name + ("`" + rest);
    if name == "" {
      assert s[1..] == rest;
    } else {
      assert s[1..] == name[1..] + ("`" + rest);
      QuotedWeighs(name[1..], rest);
    }
  }

  lemma EntryWeighs(alias: Option<string>, rest: string)
    requires Plain(alias)
    ensures TextWeight(Entry(alias) + rest, false) == TextWeight(rest, false)
  {
    hide TextWeight;
    if alias.Some? {
      var quoted := alias.value + ("`" + rest);
      assert Entry(alias) + rest == "NULL AS " + ("`" + quoted);
      Weightless("NULL AS ");
      TextsWeigh("NULL AS ", "`" + quoted);
      OpensQuotes(quoted);
      QuotedWeighs(alias.value, rest);
    } else {
      Weightless("NULL");
      TextsWeigh("NULL", rest);
    }
  }

  lemma OpensQuotes(quoted: string)
    ensures TextWeight("`" + quoted, false) == TextWeight(quoted, true)
  {
    assert ("`" + quoted)[1..] == quoted;
  }

  /** The stand-in opens and closes nothing, when its names are plain. */
  lemma {:induction false} EntriesWeigh(aliases: seq<Option<string>>)
    requires forall k :: 0 <= k < |aliases| ==> Plain(aliases[k])
    ensures TextWeight(Entries(aliases) + " ", false) == 0
  {
    hide TextWeight, Plain, Entry;
    Weightless(" ");
    if aliases == [] {
      assert Entries(aliases) + " " == " ";
    } else if |aliases| == 1 {
      EntryWeighs(aliases[0], " ");
    } else {
      var rest := Entries(aliases[1..]) + " ";
      assert Entries(aliases) + " " == Entry(aliases[0]) + (", " + rest);
      EntryWeighs(aliases[0], ", " + rest);
      Weightless(", ");
      TextsWeigh(", ", rest);
      EntriesWeigh(aliases[1..]);
    }
  }

  function StandInWeight(place: Place): int {
    if place.selectList.None? then 0 else TextWeight(place.selectList.value.text, false)
  }

  /** No name in the list stood in for holds a backquote, a backslash or a line break. */
  ghost predicate PlainList(tokens: seq<Token>, place: Place) {
    place.selectList.Some? ==> PlainWithin(tokens, place.selectList.value.span)
  }

  ghost predicate PlainWithin(tokens: seq<Token>, span: Span) {
    forall t <- tokens :: span.start <= t.start && t.end <= span.end ==> PlainName(t)
  }

  predicate PlainName(token: Token) {
    token.kind.Identifier? ==> Plain(Some(token.text))
  }

  lemma NamesArePlain(tokens: seq<Token>, select: nat, from: nat, names: seq<Option<string>>)
    requires select < from <= |tokens| && Lists(tokens, select, from, names)
    requires forall i :: select < i < from ==> PlainName(tokens[i])
    ensures forall k :: 0 <= k < |names| ==> Plain(names[k])
  {
    hide IsSplit, Plain, IsNamed, PlainName, ItemStart, ItemEnd;
    var first: nat, at: seq<nat>, items: seq<seq<Token>> :|
      ListStart(tokens, select, first, from) && IsSplit(tokens, first, from, at, items) && NamesOf(items, names);
    ListStarts(tokens, select, first, from);
    forall k | 0 <= k < |names|
      ensures Plain(names[k])
    {
      ItemLies(tokens, first, from, at, items, k);
      if names[k].Some? {
        assert IsNamed(items[k], names[k].value);
        NameIsPlain(items[k], names[k].value, tokens, ItemStart(first, at, k), ItemEnd(from, at, k));
      } else {
        NoNameIsPlain();
      }
    }
  }

  lemma NoNameIsPlain()
    ensures Plain(None)
  {}

  lemma NameIsPlain(item: seq<Token>, name: string, tokens: seq<Token>, start: nat, end: nat)
    requires IsNamed(item, name) && start <= end <= |tokens| && item == tokens[start..end]
    requires forall i :: start <= i < end ==> PlainName(tokens[i])
    ensures Plain(Some(name))
  {
    assert item != [] && item[|item| - 1] == tokens[end - 1];
  }

  lemma ItemLies(tokens: seq<Token>, first: nat, from: nat, at: seq<nat>, items: seq<seq<Token>>, k: nat)
    requires IsSplit(tokens, first, from, at, items) && k < |items|
    ensures |items| == |at| + 1 && first <= ItemStart(first, at, k) <= ItemEnd(from, at, k) <= from <= |tokens|
    ensures items[k] == tokens[ItemStart(first, at, k)..ItemEnd(from, at, k)]
  {
    hide Separates;
  }

  lemma ListOf(tokens: seq<Token>, before: int, standIn: StandIn) returns (word: nat, from: nat, select: nat)
    requires -1 <= before < |tokens| && SelectListFor(tokens, before, Some(standIn))
    ensures GroupedBy(tokens, before, word, from, select) && StandsIn(tokens, select, from, standIn)
  {
    hide StandsIn, Nearest;
    var w, f, s :| GroupedBy(tokens, before, w, f, s) && StandsIn(tokens, s, f, standIn);
    word, from, select := w, f, s;
  }

  lemma StandInWeighsNothing(tokens: seq<Token>, size: nat, place: Place, before: int)
    requires WellFormed(tokens, size) && -1 <= before < |tokens|
    requires SelectListFor(tokens, before, place.selectList) && PlainList(tokens, place)
    ensures StandInWeight(place) == 0
  {
    hide TextWeight, GroupedBy, Lists, PlainName, Entries;
    if place.selectList.Some? {
      var standIn := place.selectList.value;
      var word, from, select := ListOf(tokens, before, standIn);
      var names :| Lists(tokens, select, from, names) && standIn.text == " " + (Entries(names) + " ");
      forall i | select < i < from
        ensures PlainName(tokens[i])
      {
        assert tokens[i] in tokens && tokens[select].end <= tokens[i].start && tokens[i].end <= tokens[from].start;
      }
      NamesArePlain(tokens, select, from, names);
      EntriesWeigh(names);
      Weightless(" ");
      TextsWeigh(" ", Entries(names) + " ");
    }
  }

  lemma ListStarts(tokens: seq<Token>, select: nat, first: nat, from: nat)
    requires ListStart(tokens, select, first, from)
    ensures select < first <= from <= |tokens|
  {}

  /** What the tokens wholly in a stretch of the text add to the parentheses open. */
  function WeightIn(tokens: seq<Token>, n: nat, from: nat, until: nat): int
    requires n <= |tokens|
  {
    if n == 0 then 0
    else
      WeightIn(tokens, n - 1, from, until)
      + (if from <= tokens[n - 1].start && tokens[n - 1].end <= until then Weight(tokens[n - 1]) else 0)
  }

  /** The tokens from `a` up to `b` are those in the stretch, but for some that are no parentheses. */
  ghost predicate IsStretch(tokens: seq<Token>, from: nat, until: nat, a: nat, b: nat) {
    && a <= b <= |tokens|
    && forall i :: 0 <= i < |tokens| && Weight(tokens[i]) != 0 ==>
         (from <= tokens[i].start && tokens[i].end <= until <==> a <= i < b)
  }

  lemma {:induction false} StretchWeighs(tokens: seq<Token>, n: nat, from: nat, until: nat, a: nat, b: nat)
    requires n <= |tokens| && IsStretch(tokens, from, until, a, b)
    ensures WeightIn(tokens, n, from, until)
            == if n <= a then 0 else if n <= b then -Closing(tokens, a, n) else -Closing(tokens, a, b)
  {
    if n > 0 {
      StretchWeighs(tokens, n - 1, from, until, a, b);
      if a < n <= b {
        ClosingAdds(tokens, a, n - 1, n);
        assert Closing(tokens, n - 1, n) == -Weight(tokens[n - 1]);
      }
    }
  }

  /** Where the statement before the word is cut off: at the dotted prefix, if there is one. */
  function HeadEnd(place: Place): nat {
    if place.memberOf.Some? then place.memberOf.value.start else place.replace.start
  }

  /** What the text before the probe adds to the parentheses open, its select list stood in for. */
  function HeadWeight(tokens: seq<Token>, place: Place): int {
    if place.selectList.None? then WeightIn(tokens, |tokens|, place.statement.start, HeadEnd(place))
    else
      WeightIn(tokens, |tokens|, place.statement.start, place.selectList.value.span.start)
      + WeightIn(tokens, |tokens|, place.selectList.value.span.end, HeadEnd(place))
  }

  function ListWeight(tokens: seq<Token>, place: Place): int {
    if place.selectList.None? then 0
    else WeightIn(tokens, |tokens|, place.selectList.value.span.start, place.selectList.value.span.end)
  }

  /** Where a cut falls among the tokens. */
  ghost predicate CutAt(tokens: seq<Token>, place: Place, cut: Cut, j: nat) {
    && j <= |tokens| && cut.open == -Closing(tokens, 0, j) && place.replace.end <= cut.at
    && (forall i :: 0 <= i < j ==> tokens[i].end <= cut.at)
    && (forall i :: j <= i < |tokens| ==> cut.at <= tokens[i].start)
  }

  lemma HeadStretch(tokens: seq<Token>, size: nat, cursor: nat, place: Place, last: int, before: int)
    requires WellFormed(tokens, size) && IsPlace(tokens, cursor, place, last, before)
    requires forall t :: t in tokens ==> place.statement.start <= t.start
    ensures IsStretch(tokens, place.statement.start, HeadEnd(place), 0, before + 1)
    ensures forall i :: 0 <= i <= before ==> tokens[i].start < HeadEnd(place)
  {
    hide Closing, SelectListFor, AllCuts, NameAndDot, PathOf, Dotted, IsWord;
    assert IsLast(tokens, cursor, last);
    var end := BeforeWord(tokens, cursor, last);
    if before < end {
      assert HeadEnd(place) == tokens[before + 1].start;
    } else {
      assert HeadEnd(place) == place.replace.start;
    }
  }

  lemma TailStretch(tokens: seq<Token>, size: nat, cursor: nat, place: Place, last: int, before: int, cut: Cut, j: nat)
    requires WellFormed(tokens, size) && IsPlace(tokens, cursor, place, last, before)
    requires CutAt(tokens, place, cut, j)
    ensures IsStretch(tokens, place.replace.end, cut.at, last + 1, j)
  {
    hide Closing, SelectListFor, AllCuts, NameAndDot, PathOf, Dotted, IsWord, IsMember;
    assert IsLast(tokens, cursor, last);
    assert last >= 0 ==> tokens[last].start < place.replace.end;
    assert last < j;
    forall i | last < i < |tokens|
      ensures place.replace.end <= tokens[i].start
    {}
  }

  lemma {:induction false} WeightlessClosing(tokens: seq<Token>, from: int, until: int)
    requires 0 <= from <= until <= |tokens| && forall i :: from <= i < until ==> Weight(tokens[i]) == 0
    ensures Closing(tokens, from, until) == 0
    decreases until - from
  {
    if from < until {
      WeightlessClosing(tokens, from + 1, until);
    }
  }

  /** The word and the names before it hold no parenthesis. */
  lemma NameIsWeightless(tokens: seq<Token>, cursor: nat, place: Place, last: int, before: int)
    requires IsPlace(tokens, cursor, place, last, before)
    ensures Closing(tokens, before + 1, last + 1) == 0
  {
    hide Weight, IsWord, Dotted, SelectListFor, IsMember, AllCuts, NameAndDot, Closing, EdgeAfter;
    var end := BeforeWord(tokens, cursor, last);
    DottedIsWeightless(tokens, before, end, place.replace.start);
    if last > end {
      WordIsWeightless(tokens[last]);
    }
    WeightlessClosing(tokens, before + 1, last + 1);
  }

  lemma WordIsWeightless(token: Token)
    requires IsWord(token)
    ensures Weight(token) == 0
  {}

  lemma DottedIsWeightless(tokens: seq<Token>, before: int, end: int, edge: nat)
    requires -1 <= before <= end < |tokens| && Dotted(tokens, before, end, edge)
    ensures forall i :: before < i <= end ==> Weight(tokens[i]) == 0
  {
    forall i | before < i <= end
      ensures Weight(tokens[i]) == 0
    {
      var dot := if (end - i) % 2 == 0 then i else i + 1;
      assert NameAndDot(tokens, dot, EdgeAfter(tokens, dot, end, edge));
    }
  }

  lemma CutsAreAt(tokens: seq<Token>, size: nat, cursor: nat, place: Place, last: int, before: int, cut: Cut)
    returns (j: nat)
    requires WellFormed(tokens, size) && IsPlace(tokens, cursor, place, last, before)
    requires place.replace.end <= place.statement.end
    requires forall t :: t in tokens ==> place.statement.start <= t.start < t.end <= place.statement.end
    requires cut in place.cuts
    ensures CutAt(tokens, place, cut, j)
  {
    PlaceCuts(tokens, size, cursor, place, last, before);
    hide Closing, IsPlace, CutAt, CutBefore;
    assert KeepsNames(tokens, place, cut);
    if k :| 0 <= k < |tokens| && CutBefore(tokens, place, cut, k) {
      j := k;
      CutBeforeIsAt(tokens, size, place, cut, k);
    } else {
      j := |tokens|;
      WholeIsAt(tokens, place, cut);
    }
  }

  lemma CutBeforeIsAt(tokens: seq<Token>, size: nat, place: Place, cut: Cut, j: nat)
    requires WellFormed(tokens, size) && j < |tokens| && CutBefore(tokens, place, cut, j)
    ensures CutAt(tokens, place, cut, j)
  {
    hide Closing;
  }

  lemma WholeIsAt(tokens: seq<Token>, place: Place, cut: Cut)
    requires cut.at == place.statement.end >= place.replace.end && cut.open == -Closing(tokens, 0, |tokens|)
    requires forall t :: t in tokens ==> t.end <= place.statement.end
    ensures CutAt(tokens, place, cut, |tokens|)
  {
    hide Closing;
  }

  lemma StretchSplits(tokens: seq<Token>, size: nat, from: nat, until: nat, a: nat, b: nat, k: nat)
    requires WellFormed(tokens, size) && IsStretch(tokens, from, until, a, b) && a <= k < b
    requires from <= tokens[k].start && tokens[k].start < until
    ensures IsStretch(tokens, from, tokens[k].end, a, k + 1)
    ensures IsStretch(tokens, tokens[k].start, until, k, b)
  {
    hide Weight;
    forall i | 0 <= i < |tokens| && Weight(tokens[i]) != 0
      ensures from <= tokens[i].start && tokens[i].end <= tokens[k].end <==> a <= i < k + 1
      ensures tokens[k].start <= tokens[i].start && tokens[i].end <= until <==> k <= i < b
    {
      if i < k {
        assert tokens[i].end <= tokens[k].start;
      } else if i > k {
        assert tokens[k].end <= tokens[i].start;
      }
    }
  }

  lemma StretchBetween(tokens: seq<Token>, size: nat, a: nat, b: nat)
    requires WellFormed(tokens, size) && a < b < |tokens|
    ensures IsStretch(tokens, tokens[a].end, tokens[b].start, a + 1, b)
  {
    hide Weight;
  }

  /** The list lies before the word, and closes no parenthesis it did not open. */
  lemma ListLies(tokens: seq<Token>, place: Place, before: int) returns (select: nat, from: nat)
    requires -1 <= before < |tokens| && SelectListFor(tokens, before, place.selectList) && place.selectList.Some?
    ensures select < from <= before
    ensures place.selectList.value.span == Span(tokens[select].end, tokens[from].start)
    ensures Closing(tokens, select + 1, from) <= 0
  {
    hide StandsIn, Closing, Nearest, AtByOrClause, AtFromOrSelect, AtSelect;
    var word, f, s :|
      GroupedBy(tokens, before, word, f, s) && StandsIn(tokens, s, f, place.selectList.value);
    ListIsClosed(tokens, before, word, f, s);
    select, from := s, f;
    StandsInSpan(tokens, s, f, place.selectList.value);
  }

  lemma ListIsClosed(tokens: seq<Token>, before: int, word: int, from: int, select: int)
    requires GroupedBy(tokens, before, word, from, select)
    ensures 0 <= select < from < before < |tokens| && Closing(tokens, select + 1, from) <= 0
  {
    hide Closing, NoneAfter, SameQuery, EndsClause;
    assert Sought(tokens, AtSelect(tokens), select, from);
  }

  lemma StandsInSpan(tokens: seq<Token>, select: nat, from: nat, standIn: StandIn)
    requires StandsIn(tokens, select, from, standIn)
    ensures select < from < |tokens| && standIn.span == Span(tokens[select].end, tokens[from].start)
  {
    hide Lists, Entries;
  }

  lemma HeadWeighs(tokens: seq<Token>, size: nat, place: Place, before: int)
    requires WellFormed(tokens, size) && -1 <= before < |tokens|
    requires SelectListFor(tokens, before, place.selectList)
    requires IsStretch(tokens, place.statement.start, HeadEnd(place), 0, before + 1)
    requires forall t :: t in tokens ==> place.statement.start <= t.start
    requires forall i :: 0 <= i <= before ==> tokens[i].start < HeadEnd(place)
    ensures HeadWeight(tokens, place) + ListWeight(tokens, place) == -Closing(tokens, 0, before + 1)
    ensures ListWeight(tokens, place) >= 0
  {
    hide SelectListFor, Closing, WellFormed, IsStretch, WeightIn, HeadEnd;
    if place.selectList.None? {
      StretchWeighs(tokens, |tokens|, place.statement.start, HeadEnd(place), 0, before + 1);
      EmptyClosing(tokens);
    } else {
      var select, from := ListLies(tokens, place, before);
      ClosingAdds(tokens, 0, select + 1, from);
      ClosingAdds(tokens, 0, from, before + 1);
      assert tokens[select] in tokens && tokens[from] in tokens;
      StretchSplits(tokens, size, place.statement.start, HeadEnd(place), 0, before + 1, select);
      StretchSplits(tokens, size, place.statement.start, HeadEnd(place), 0, before + 1, from);
      StretchBetween(tokens, size, select, from);
      StretchWeighs(tokens, |tokens|, place.statement.start, tokens[select].end, 0, select + 1);
      StretchWeighs(tokens, |tokens|, tokens[select].end, tokens[from].start, select + 1, from);
      StretchWeighs(tokens, |tokens|, tokens[from].start, HeadEnd(place), from, before + 1);
      assert |tokens| > before;
    }
  }

  lemma EmptyClosing(tokens: seq<Token>)
    ensures Closing(tokens, 0, 0) == 0
  {}

  /** What is open at the end of the text tried: the head, the list's stand-in, what is kept, and what is added. */
  function LeftOpen(tokens: seq<Token>, place: Place, e: Ending): int
    requires e.cut.open >= 0
  {
    HeadWeight(tokens, place) + StandInWeight(place)
    + WeightIn(tokens, |tokens|, place.replace.end, e.cut.at) + TextWeight(Added(e), false)
  }

  /**
   * Cut, closed and with its select list stood in for, a statement lacks the
   * parentheses the list it had left open, which is never fewer than none; and
   * what stands in for the list brings none of its own where the names in it are plain.
   */
  lemma EndingsBalance(tokens: seq<Token>, size: nat, cursor: nat, place: Place, last: int, before: int, e: Ending)
    requires WellFormed(tokens, size) && IsPlace(tokens, cursor, place, last, before)
    requires place.replace.end <= place.statement.end
    requires forall t :: t in tokens ==> place.statement.start <= t.start < t.end <= place.statement.end
    requires e.cut in place.cuts && e.cut.open >= 0
    ensures LeftOpen(tokens, place, e) == StandInWeight(place) - ListWeight(tokens, place)
    ensures ListWeight(tokens, place) >= 0
    ensures PlainList(tokens, place) ==> StandInWeight(place) == 0
  {
    hide SelectListFor, IsPlace, Closing, IsStretch, WellFormed, WeightIn, HeadEnd, HeadWeight, ListWeight;
    hide StandInWeight, Added, TextWeight, PlainList;
    var j := CutsAreAt(tokens, size, cursor, place, last, before, e.cut);
    HeadStretch(tokens, size, cursor, place, last, before);
    TailStretch(tokens, size, cursor, place, last, before, e.cut, j);
    Ranges(tokens, cursor, place, last, before, e.cut, j);
    NameIsWeightless(tokens, cursor, place, last, before);
    ClosingAdds(tokens, 0, before + 1, last + 1);
    ClosingAdds(tokens, 0, last + 1, j);
    StretchWeighs(tokens, |tokens|, place.replace.end, e.cut.at, last + 1, j);
    HeadWeighs(tokens, size, place, before);
    AddedCloses(e);
    if PlainList(tokens, place) {
      StandInWeighsNothing(tokens, size, place, before);
    }
  }

  lemma Ranges(tokens: seq<Token>, cursor: nat, place: Place, last: int, before: int, cut: Cut, j: nat)
    requires IsPlace(tokens, cursor, place, last, before)
    requires IsStretch(tokens, place.replace.end, cut.at, last + 1, j)
    ensures -1 <= before <= last < j <= |tokens|
    ensures SelectListFor(tokens, before, place.selectList)
  {}

  ghost predicate CountsOut(tokens: seq<Token>, place: Place, e: Ending) {
    e.cut.open >= 0 && LeftOpen(tokens, place, e) == 0
  }

  lemma WordIsInStatement(tokens: seq<Token>, size: nat, cursor: nat, place: Place, last: int, before: int)
    requires WellFormed(tokens, size) && IsPlace(tokens, cursor, place, last, before)
    requires place.statement.start <= cursor <= place.statement.end
    requires forall t :: t in tokens ==> place.statement.start <= t.start < t.end <= place.statement.end
    ensures place.statement.start <= place.replace.start <= cursor <= place.replace.end <= place.statement.end
  {
    hide Closing, SelectListFor, AllCuts, NameAndDot, PathOf, Dotted, IsWord, IsMember;
    assert IsLast(tokens, cursor, last);
    assert last >= 0 ==> tokens[last] in tokens;
  }

  lemma ListIsOpen(tokens: seq<Token>, size: nat, cursor: nat, place: Place, last: int, before: int)
    requires WellFormed(tokens, size) && IsPlace(tokens, cursor, place, last, before)
    requires forall t :: t in tokens ==> place.statement.start <= t.start
    ensures ListWeight(tokens, place) >= 0
    ensures PlainList(tokens, place) ==> StandInWeight(place) == 0
  {
    hide SelectListFor, IsPlace, Closing, IsStretch, WellFormed, ListWeight, PlainList, StandInWeight;
    HeadStretch(tokens, size, cursor, place, last, before);
    BeforeIsIn(tokens, cursor, place, last, before);
    HeadWeighs(tokens, size, place, before);
    if PlainList(tokens, place) {
      StandInWeighsNothing(tokens, size, place, before);
    }
  }

  lemma BeforeIsIn(tokens: seq<Token>, cursor: nat, place: Place, last: int, before: int)
    requires IsPlace(tokens, cursor, place, last, before)
    ensures -1 <= before < |tokens| && SelectListFor(tokens, before, place.selectList)
  {}

  /**
   * What `Locate` finds: a word around the cursor, in its statement; cuts after
   * it, in order, none within a dotted name; and endings made of every cut that
   * closes no more than it opens, each with less of the statement than the one
   * before. Where no select list is stood in for, or one of plain names, the
   * parentheses of every ending come out even exactly when the list's do.
   */
  lemma PlaceIsSound(all: seq<Token>, size: nat, cursor: nat, tokens: seq<Token>, place: Place, last: int, before: int)
    requires WellFormed(all, size) && IsStatement(all, |all|, size, cursor, place.statement)
    requires tokens == Within(all, |all|, place.statement) && IsPlace(tokens, cursor, place, last, before)
    ensures place.statement.start <= place.replace.start <= cursor <= place.replace.end <= place.statement.end
    ensures place.cuts != [] && Ascending(place.cuts)
    ensures forall c :: c in place.cuts ==> KeepsNames(tokens, place, c)
    ensures KeepsLess(EndingsOf(place.cuts))
    ensures forall e :: e in EndingsOf(place.cuts) <==> IsEndingOf(e, place.cuts)
    ensures ListWeight(tokens, place) >= 0
    ensures forall e :: e in EndingsOf(place.cuts) ==>
              (CountsOut(tokens, place, e) <==> ListWeight(tokens, place) == StandInWeight(place))
    ensures PlainList(tokens, place) ==> StandInWeight(place) == 0
  {
    hide IsPlace, Within, WellFormed, KeepsNames, EndingsOf, ListWeight, Closing, LeftOpen, StandInWeight, PlainList;
    WithinIsWellFormed(all, |all|, size, cursor, place.statement);
    WordIsInStatement(tokens, size, cursor, place, last, before);
    PlaceCuts(tokens, size, cursor, place, last, before);
    EndingsKeepLess(place.cuts);
    ListIsOpen(tokens, size, cursor, place, last, before);
    forall e | e in EndingsOf(place.cuts)
      ensures CountsOut(tokens, place, e) <==> ListWeight(tokens, place) == StandInWeight(place)
    {
      EndingsBalance(tokens, size, cursor, place, last, before, e);
    }
  }

  /** `SELECT (a FROM t GROUP BY ` */
  const OPEN_LIST: seq<Token> :=
    [Token(Keyword, "SELECT", 0, 6), Token(Keyword, "(", 7, 8), Token(Identifier, "a", 8, 9),
     Token(Keyword, "FROM", 10, 14), Token(Identifier, "t", 15, 16),
     Token(Keyword, "GROUP", 17, 22), Token(Keyword, "BY", 23, 25)]

  lemma OpenListWeighs()
    ensures WeightIn(OPEN_LIST, 7, 6, 10) == 1
    ensures Matched(OPEN_LIST, 1, 3) && Matched(OPEN_LIST, 4, 5) && Matched(OPEN_LIST, 7, 7)
  {
    hide WeightIn;
    OpenListCloses();
    StretchWeighs(OPEN_LIST, 7, 6, 10, 1, 3);
  }

  lemma OpenListIsWellFormed()
    ensures WellFormed(OPEN_LIST, 26)
  {}

  lemma OpenListIsOneQuery()
    ensures forall p :: 0 <= p < 7 ==> !OpensQuery(OPEN_LIST, p)
  {}

  lemma OpenListCloses()
    ensures IsStretch(OPEN_LIST, 6, 10, 1, 3)
    ensures Closing(OPEN_LIST, 1, 1) == 0 && Closing(OPEN_LIST, 1, 2) == -1 && Closing(OPEN_LIST, 1, 3) == -1
    ensures Closing(OPEN_LIST, 4, 4) == 0 && Closing(OPEN_LIST, 4, 5) == 0 && Closing(OPEN_LIST, 7, 7) == 0
  {
    assert forall i :: 0 <= i < 7 && i != 1 ==> Weight(OPEN_LIST[i]) == 0;
    WeightlessClosing(OPEN_LIST, 2, 3);
    WeightlessClosing(OPEN_LIST, 4, 5);
  }

  lemma OpenListIsGrouped()
    ensures WellFormed(OPEN_LIST, 26) && GroupedBy(OPEN_LIST, 6, 6, 3, 0)
    ensures WeightIn(OPEN_LIST, |OPEN_LIST|, OPEN_LIST[0].end, OPEN_LIST[3].start) == 1
  {
    hide Matched, OpensQuery, WeightIn, WellFormed, Nearest;
    OpenListWeighs();
    OpenListIsWellFormed();
    OpenListIsOneQuery();
    WalksBack(OPEN_LIST, AtByOrClause(OPEN_LIST), 6, 7);
    WalksBack(OPEN_LIST, AtFromOrSelect(OPEN_LIST), 3, 5);
    WalksBack(OPEN_LIST, AtSelect(OPEN_LIST), 0, 3);
  }

  lemma GroupedIsUnique(tokens: seq<Token>, before: int, w: int, f: int, s: int, word: int, from: int, select: int)
    requires GroupedBy(tokens, before, w, f, s) && GroupedBy(tokens, before, word, from, select)
    ensures word == w && from == f && select == s
  {
    hide Nearest;
    NearestIsUnique(tokens, AtByOrClause(tokens), w, word, before + 1);
    NearestIsUnique(tokens, AtFromOrSelect(tokens), f, from, w - 1);
    NearestIsUnique(tokens, AtSelect(tokens), s, select, f);
  }

  lemma {:induction false} AllWithin(all: seq<Token>, n: nat, span: Span)
    requires n <= |all| && forall i :: 0 <= i < n ==> IsWithin(all[i], span)
    ensures Within(all, n, span) == all[..n]
  {
    if n > 0 {
      AllWithin(all, n - 1, span);
      assert all[..n] == all[..n - 1] + [all[n - 1]];
    }
  }

  lemma OpenListPlace(tokens: seq<Token>, place: Place, last: int, before: int)
    requires IsStatement(OPEN_LIST, |OPEN_LIST|, 26, 26, place.statement)
    requires tokens == Within(OPEN_LIST, |OPEN_LIST|, place.statement) && IsPlace(tokens, 26, place, last, before)
    ensures tokens == OPEN_LIST && before == 6 && place.statement == Span(0, 26)
  {
    hide SelectListFor, WellFormed, AllCuts, IsMember, Within;
    assert IsStatement(OPEN_LIST, |OPEN_LIST|, 26, 26, Span(0, 26));
    OpenListIsGrouped();
    StatementIsUnique(OPEN_LIST, 26, 26, place.statement, Span(0, 26));
    AllWithin(OPEN_LIST, |OPEN_LIST|, Span(0, 26));
    assert OPEN_LIST[..7] == OPEN_LIST;
    assert last == 6;
    assert before != 6 ==> NameAndDot(tokens, 6, EdgeAfter(tokens, 6, 6, place.replace.start));
  }

  lemma OpenListLists(place: Place)
    requires SelectListFor(OPEN_LIST, 6, place.selectList)
    ensures place.selectList.Some? && place.selectList.value.span == Span(6, 10)
    ensures ListWeight(OPEN_LIST, place) == 1 && PlainList(OPEN_LIST, place)
  {
    hide GroupedBy, StandsIn, WeightIn;
    OpenListIsGrouped();
    var word, from, select := ListOf(OPEN_LIST, 6, place.selectList.value);
    GroupedIsUnique(OPEN_LIST, 6, 6, 3, 0, word, from, select);
    StandsInSpan(OPEN_LIST, 0, 3, place.selectList.value);
  }

  lemma WholeIsAnEnding(tokens: seq<Token>, cursor: nat, place: Place, last: int, before: int)
    requires IsPlace(tokens, cursor, place, last, before) && Closing(tokens, 0, |tokens|) <= 0
    requires Ascending(place.cuts)
    ensures EndingsOf(place.cuts) != []
  {
    hide EndingsOf, Dotted, NameAndDot, IsMember, SelectListFor, Closing;
    EndingsKeepLess(place.cuts);
    var whole := place.cuts[|place.cuts| - 1];
    assert IsEndingOf(Ending(whole, false), place.cuts);
    assert Ending(whole, false) in EndingsOf(place.cuts);
  }

  /**
   * With the cursor at the end of `SELECT (a FROM t GROUP BY `, whatever place
   * `Locate` gives there has endings, and all of them close one parenthesis too
   * many: the list stood in for takes the one it opened away.
   */
  lemma AnOpenListIsClosedTwice(tokens: seq<Token>, place: Place, last: int, before: int)
    requires IsStatement(OPEN_LIST, |OPEN_LIST|, 26, 26, place.statement)
    requires tokens == Within(OPEN_LIST, |OPEN_LIST|, place.statement) && IsPlace(tokens, 26, place, last, before)
    ensures EndingsOf(place.cuts) != []
    ensures forall e :: e in EndingsOf(place.cuts) ==> !CountsOut(tokens, place, e)
  {
    hide IsPlace, IsStatement, Within, EndingsOf, CountsOut, ListWeight, StandInWeight, PlainList, WellFormed, Closing;
    hide KeepsNames, IsEndingOf, SelectListFor;
    OpenListPlace(tokens, place, last, before);
    OpenListIsGrouped();
    PlaceIsSound(OPEN_LIST, 26, 26, tokens, place, last, before);
    BeforeIsIn(tokens, 26, place, last, before);
    OpenListLists(place);
    OpenListClosesOnce();
    WholeIsAnEnding(tokens, 26, place, last, before);
  }

  lemma OpenListClosesOnce()
    ensures Closing(OPEN_LIST, 0, |OPEN_LIST|) == -1
  {
    assert forall i :: 0 <= i < 7 && i != 1 ==> Weight(OPEN_LIST[i]) == 0;
    ClosingAdds(OPEN_LIST, 0, 1, 7);
    ClosingAdds(OPEN_LIST, 1, 2, 7);
    WeightlessClosing(OPEN_LIST, 0, 1);
    WeightlessClosing(OPEN_LIST, 2, 7);
    OpenListCloses();
  }

  lemma WalksBack(tokens: seq<Token>, stop: int -> bool, i: nat, until: nat)
    requires i < until <= |tokens| && stop(i) && Weight(tokens[i]) == 0 && Matched(tokens, i + 1, until)
    requires forall p :: 0 <= p < |tokens| ==> !OpensQuery(tokens, p)
    requires forall j :: i < j < until ==> !stop(j)
    ensures Nearest(tokens, stop, i, until)
  {}
}
