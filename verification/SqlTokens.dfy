/**
 * A GoogleSQL statement's tokens, and the walks over them that find the select
 * list a `GROUP BY` belongs to (`Back`, `AliasOf` and `GroupedSelectList` of
 * `bigquery-analyzer/complete.cc`).
 *
 * The tokenizer is not part of this model: a token is where it starts and
 * ends, what kind it is, and its text, a keyword's in upper case. Punctuation
 * is of the keyword kind.
 */
module SqlTokens {
  datatype Kind = Keyword | Identifier | Value | Comment

  datatype Token = Token(kind: Kind, text: string, start: nat, end: nat)

  predicate Is(token: Token, image: string) {
    token.kind.Keyword? && token.text == image
  }

  predicate Opens(token: Token) {
    Is(token, "(")
  }

  predicate Closes(token: Token) {
    Is(token, ")")
  }

  /** What a token adds to the parentheses open. */
  function Weight(token: Token): int {
    if Opens(token) then 1 else if Closes(token) then -1 else 0
  }

  // ---- which tokens are in the same query, and not within parentheses ----

  /** How many more `)` than `(` there are in `tokens[from..to]`. */
  function Closing(tokens: seq<Token>, from: int, until: int): int
    requires 0 <= from <= until <= |tokens|
    decreases until - from
  {
    if from == until then 0 else -Weight(tokens[from]) + Closing(tokens, from + 1, until)
  }

  lemma {:induction false} ClosingAdds(tokens: seq<Token>, from: int, middle: int, until: int)
    requires 0 <= from <= middle <= until <= |tokens|
    ensures Closing(tokens, from, until) == Closing(tokens, from, middle) + Closing(tokens, middle, until)
    decreases middle - from
  {
    if from < middle {
      ClosingAdds(tokens, from + 1, middle, until);
    }
  }

  /** Every `)` in `tokens[from..to]` is matched by a `(` there. */
  ghost predicate Matched(tokens: seq<Token>, from: nat, until: nat)
    requires from <= until <= |tokens|
  {
    forall k :: from <= k <= until ==> Closing(tokens, from, k) <= 0
  }

  predicate OpensQuery(tokens: seq<Token>, i: nat) {
    i + 1 < |tokens| && Opens(tokens[i]) && (Is(tokens[i + 1], "SELECT") || Is(tokens[i + 1], "WITH"))
  }

  /** No parenthesis of a subquery is left open in `tokens[from..to]`. */
  ghost predicate SameQuery(tokens: seq<Token>, from: nat, until: nat)
    requires from <= until <= |tokens|
  {
    forall p: nat :: from <= p < until && OpensQuery(tokens, p) ==> !Matched(tokens, p + 1, until)
  }

  /** What walking back from before `to` looks for: accepted, on the walk's own level, in its own query. */
  ghost predicate Sought(tokens: seq<Token>, stop: int -> bool, i: int, until: int) {
    && 0 <= i < until <= |tokens| && !Opens(tokens[i]) && !Closes(tokens[i]) && stop(i)
    && Matched(tokens, i + 1, until) && SameQuery(tokens, i + 1, until)
  }

  /** No token from `found` on is sought. */
  ghost predicate NoneAfter(tokens: seq<Token>, stop: int -> bool, found: int, until: int) {
    forall i :: found < i < until ==> !Sought(tokens, stop, i, until)
  }

  /** The last sought token before `to`, or -1 when there is none. */
  ghost predicate Nearest(tokens: seq<Token>, stop: int -> bool, found: int, until: int) {
    -1 <= found && (found == -1 || Sought(tokens, stop, found, until)) && NoneAfter(tokens, stop, found, until)
  }

  /** The depth the walk is at once it has passed `tokens[from..to]`, from the end. */
  function Depth(tokens: seq<Token>, from: int, until: int): nat
    requires 0 <= from <= until <= |tokens|
    decreases until - from
  {
    if from == until then 0
    else
      var below := Depth(tokens, from + 1, until);
      if Closes(tokens[from]) then below + 1
      else if Opens(tokens[from]) && below > 0 then below - 1
      else below
  }

  ghost predicate MostIsReached(tokens: seq<Token>, from: nat, until: nat)
    requires from <= until <= |tokens|
  {
    exists k :: from <= k <= until && Closing(tokens, from, k) == Depth(tokens, from, until)
  }

  /** The depth is the most a stretch starting here closes beyond what it opens. */
  lemma {:induction false} DepthIsTheMostClosed(tokens: seq<Token>, from: nat, until: nat)
    requires from <= until <= |tokens|
    ensures forall k :: from <= k <= until ==> Closing(tokens, from, k) <= Depth(tokens, from, until)
    ensures MostIsReached(tokens, from, until)
    decreases until - from
  {
    if from == until {
      assert Closing(tokens, from, from) == 0;
    } else {
      DepthIsTheMostClosed(tokens, from + 1, until);
      var depth := Depth(tokens, from, until);
      forall k | from <= k <= until
        ensures Closing(tokens, from, k) <= depth
      {
        if k > from {
          assert Closing(tokens, from + 1, k) <= Depth(tokens, from + 1, until);
        }
      }
      assert Closing(tokens, from, from) == 0;
      var k :| from + 1 <= k <= until && Closing(tokens, from + 1, k) == Depth(tokens, from + 1, until);
      assert Closing(tokens, from, k) == -Weight(tokens[from]) + Closing(tokens, from + 1, k);
      assert depth == 0 || Closing(tokens, from, k) == depth;
    }
  }

  lemma MatchedAtDepthZero(tokens: seq<Token>, from: nat, until: nat)
    requires from <= until <= |tokens|
    ensures Depth(tokens, from, until) == 0 <==> Matched(tokens, from, until)
  {
    DepthIsTheMostClosed(tokens, from, until);
  }

  /**
   * Walks back from `from`, over what is in parentheses, to the nearest token
   * `stop` accepts in the same query, or to -1 when there is none.
   */
  method Back(tokens: seq<Token>, from: int, stop: int -> bool) returns (found: int)
    requires -1 <= from < |tokens|
    ensures Nearest(tokens, stop, found, from + 1)
  {
    var depth := 0;
    var i := from;
    while i >= 0
      invariant -1 <= i <= from
      invariant depth == Depth(tokens, i + 1, from + 1)
      invariant SameQuery(tokens, i + 1, from + 1)
      invariant NoneAfter(tokens, stop, i, from + 1)
    {
      MatchedAtDepthZero(tokens, i + 1, from + 1);
      if Closes(tokens[i]) {
        depth := depth + 1;
      } else if Opens(tokens[i]) {
        if depth == 0 {
          if OpensQuery(tokens, i) {
            LeftTheQuery(tokens, stop, i, from + 1);
            return -1;
          }
        } else {
          depth := depth - 1;
        }
      } else if depth == 0 && stop(i) {
        return i;
      }
      SameQueryOneMore(tokens, i, from + 1);
      i := i - 1;
    }
    return -1;
  }

  lemma NearestIsUnique(tokens: seq<Token>, stop: int -> bool, i: int, j: int, until: int)
    requires Nearest(tokens, stop, i, until) && Nearest(tokens, stop, j, until)
    ensures i == j
  {}

  lemma LeftTheQuery(tokens: seq<Token>, stop: int -> bool, p: nat, until: nat)
    requires p < until <= |tokens| && OpensQuery(tokens, p) && Matched(tokens, p + 1, until)
    requires NoneAfter(tokens, stop, p, until)
    ensures NoneAfter(tokens, stop, -1, until)
  {
    forall i | -1 < i < p
      ensures !Sought(tokens, stop, i, until)
    {
      assert OpensQuery(tokens, p);
    }
  }

  lemma SameQueryOneMore(tokens: seq<Token>, i: nat, until: nat)
    requires i < until <= |tokens| && SameQuery(tokens, i + 1, until)
    requires OpensQuery(tokens, i) ==> !Matched(tokens, i + 1, until)
    ensures SameQuery(tokens, i, until)
  {}
}
