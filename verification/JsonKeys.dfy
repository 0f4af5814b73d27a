/** The keys a row is exported under, `toJson` of `src/features/query/export.ts`. */
module JsonKeys {
  import opened Decimals

  /** The n-th key tried for a column's name, from its own name on. */
  function Candidate(name: string, n: nat): string {
    if n < 2 then name else name + "_" + Decimal(n)
  }

  lemma CandidatesDiffer(name: string, m: nat, n: nat)
    requires 1 <= m < n
    ensures Candidate(name, m) != Candidate(name, n)
  {
    if m >= 2 {
      DecimalReadsBack(m);
      DecimalReadsBack(n);
      assert Candidate(name, m)[|name| + 1..] == Decimal(m);
      assert Candidate(name, n)[|name| + 1..] == Decimal(n);
    }
  }

  ghost predicate AllTaken(name: string, n: nat, keys: seq<string>) {
    forall m :: 1 <= m < n ==> Candidate(name, m) in keys
  }

  /** Among more candidates than there are keys, one is free. */
  lemma {:induction false} TakenAreFew(name: string, n: nat, keys: seq<string>)
    requires n >= 1 && AllTaken(name, n, keys)
    ensures n - 1 <= |keys|
  {
    hide Candidate;
    if n > 1 {
      var i :| 0 <= i < |keys| && keys[i] == Candidate(name, n - 1);
      var others := keys[..i] + keys[i + 1..];
      forall m | 1 <= m < n - 1
        ensures Candidate(name, m) in others
      {
        CandidatesDiffer(name, m, n - 1);
        var j :| 0 <= j < |keys| && keys[j] == Candidate(name, m);
        assert others[if j < i then j else j - 1] == keys[j];
      }
      TakenAreFew(name, n - 1, others);
    }
  }

  ghost predicate Distinct(keys: seq<string>) {
    forall i, j :: 0 <= i < j < |keys| ==> keys[i] != keys[j]
  }

  /** A key is the first candidate for its column's name that no column before it has. */
  ghost predicate FirstFree(name: string, key: string, before: seq<string>) {
    exists n: nat :: n >= 1 && key == Candidate(name, n) && key !in before && AllTaken(name, n, before)
  }

  /** Numbers the columns whose names are taken. */
  method Keys(names: seq<string>) returns (keys: seq<string>)
    ensures |keys| == |names| && Distinct(keys)
    ensures forall i :: 0 <= i < |names| ==> FirstFree(names[i], keys[i], keys[..i])
  {
    keys := [];
    for i := 0 to |names|
      invariant |keys| == i && Distinct(keys)
      invariant forall j :: 0 <= j < i ==> FirstFree(names[j], keys[j], keys[..j])
    {
      var name := names[i];
      var key := name;
      var n := 2;
      while key in keys
        invariant n >= 2 && key == Candidate(name, n - 1) && AllTaken(name, n - 1, keys)
        decreases |keys| + 2 - n
      {
        assert AllTaken(name, n, keys);
        TakenAreFew(name, n, keys);
        key := name + "_" + Decimal(n);
        n := n + 1;
      }
      assert FirstFree(name, key, keys);
      var more := keys + [key];
      assert more[..i] == keys;
      assert forall j :: 0 <= j < i ==> more[..j] == keys[..j];
      keys := more;
    }
  }

  lemma FirstFreeIsUnique(name: string, a: string, b: string, before: seq<string>)
    requires FirstFree(name, a, before) && FirstFree(name, b, before)
    ensures a == b
  {
    hide Candidate;
    var j: nat :| j >= 1 && a == Candidate(name, j) && a !in before && AllTaken(name, j, before);
    var k: nat :| k >= 1 && b == Candidate(name, k) && b !in before && AllTaken(name, k, before);
    assert !(j < k) && !(k < j);
  }

  /** The keys are settled by the names: what is exported does not depend on how they were found. */
  lemma {:induction false} KeysAreUnique(names: seq<string>, a: seq<string>, b: seq<string>, n: nat)
    requires |a| == |names| && |b| == |names| && n <= |names|
    requires forall i :: 0 <= i < |names| ==> FirstFree(names[i], a[i], a[..i])
    requires forall i :: 0 <= i < |names| ==> FirstFree(names[i], b[i], b[..i])
    ensures a[..n] == b[..n]
  {
    hide FirstFree;
    if n > 0 {
      KeysAreUnique(names, a, b, n - 1);
      var before := a[..n - 1];
      FirstFreeIsUnique(names[n - 1], a[n - 1], b[n - 1], before);
      assert a[..n] == before + [a[n - 1]] && b[..n] == before + [b[n - 1]];
    }
  }

  /** An object of a row: each key with its cell, a later one of the same key over an earlier. */
  function Entries<T>(keys: seq<string>, row: seq<T>): map<string, T>
    requires |keys| == |row|
  {
    if keys == [] then map[]
    else Entries(keys[..|keys| - 1], row[..|row| - 1])[keys[|keys| - 1] := row[|row| - 1]]
  }

  /** Each cell of a row is in its object under its column's key, and there is nothing else in it. */
  lemma {:induction false} NoCellIsLost<T>(keys: seq<string>, row: seq<T>)
    requires |keys| == |row| && Distinct(keys)
    ensures forall i :: 0 <= i < |keys| ==> keys[i] in Entries(keys, row) && Entries(keys, row)[keys[i]] == row[i]
    ensures forall key <- Entries(keys, row) :: key in keys
  {
    if keys != [] {
      NoCellIsLost(keys[..|keys| - 1], row[..|row| - 1]);
    }
  }
}
