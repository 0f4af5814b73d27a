/**
 * Places in a text, counted in UTF-16 units by the editor and in bytes by the
 * helper (`byte_offset` and `utf16_offset` of `src-tauri/src/app/completion.rs`).
 */
module Offsets {
  /** A Unicode scalar value. */
  type Scalar = c: nat | c < 0xD800 || 0xE000 <= c < 0x11_0000

  type Text = seq<Scalar>

  function BytesOf(c: Scalar): nat {
    if c < 0x80 then 1 else if c < 0x800 then 2 else if c < 0x1_0000 then 3 else 4
  }

  function UnitsOf(c: Scalar): nat {
    if c < 0x1_0000 then 1 else 2
  }

  /** How many bytes a text's first `k` characters take. */
  function Bytes(text: Text, k: nat): nat
    requires k <= |text|
  {
    if k == 0 then 0 else Bytes(text, k - 1) + BytesOf(text[k - 1])
  }

  function Units(text: Text, k: nat): nat
    requires k <= |text|
  {
    if k == 0 then 0 else Units(text, k - 1) + UnitsOf(text[k - 1])
  }

  /** The first `k` characters are the fewest of at least so many units, or all there are. */
  ghost predicate Reaches(text: Text, units: nat, k: nat) {
    && k <= |text| && (k == |text| || Units(text, k) >= units)
    && forall j :: 0 <= j < k ==> Units(text, j) < units
  }

  method ByteOffset(text: Text, units: nat) returns (offset: nat)
    ensures exists k :: Reaches(text, units, k) && offset == Bytes(text, k)
  {
    var counted := 0;
    var at := 0;
    for i := 0 to |text|
      invariant counted == Units(text, i) && at == Bytes(text, i)
      invariant forall j :: 0 <= j < i ==> Units(text, j) < units
    {
      if counted >= units {
        assert Reaches(text, units, i);
        return at;
      }
      counted := counted + UnitsOf(text[i]);
      at := at + BytesOf(text[i]);
    }
    assert Reaches(text, units, |text|);
    return at;
  }

  /** How many units there are before a byte; it is taken to be between two characters, or past the text. */
  method Utf16Offset(text: Text, bytes: nat, ghost k: nat) returns (units: nat)
    requires k <= |text| && (bytes == Bytes(text, k) || (k == |text| && bytes >= Bytes(text, k)))
    ensures units == Units(text, k)
  {
    units := 0;
    var i, at := 0, 0;
    while i < |text| && at < bytes
      invariant i <= k && at == Bytes(text, i) && units == Units(text, i)
    {
      BytesAscend(text, k, i);
      units := units + UnitsOf(text[i]);
      at := at + BytesOf(text[i]);
      i := i + 1;
    }
    if i < k {
      BytesAscend(text, i, k);
    }
  }

  lemma {:induction false} BytesAscend(text: Text, j: nat, k: nat)
    requires j <= |text| && k <= |text|
    ensures j < k ==> Bytes(text, j) < Bytes(text, k)
    decreases k
  {
    if j < k {
      BytesAscend(text, j, k - 1);
    }
  }

  lemma {:induction false} UnitsAscend(text: Text, j: nat, k: nat)
    requires j <= |text| && k <= |text|
    ensures j < k ==> Units(text, j) < Units(text, k)
    decreases k
  {
    if j < k {
      UnitsAscend(text, j, k - 1);
    }
  }

  /** From a byte between characters to units and back is the same byte. */
  lemma BytesComeBack(text: Text, k: nat, found: nat)
    requires k <= |text| && Reaches(text, Units(text, k), found)
    ensures found == k
  {
    if found < k {
      UnitsAscend(text, found, k);
    } else if k < found {
      UnitsAscend(text, k, found);
    }
  }

  /**
   * From units to bytes and back is the same unit exactly where the unit is
   * between characters of the text: within a pair it is the unit after, and
   * past the text the text's end.
   */
  lemma UnitsComeBack(text: Text, units: nat, k: nat)
    requires Reaches(text, units, k)
    ensures Units(text, k) == units <==> exists j :: 0 <= j <= |text| && Units(text, j) == units
    ensures units <= Units(text, |text|) ==> units <= Units(text, k) <= units + 1
    ensures units > Units(text, |text|) ==> k == |text|
  {
    if j :| 0 <= j <= |text| && Units(text, j) == units {
      BytesComeBack(text, j, k);
    }
    if units > Units(text, |text|) {
      UnitsAscend(text, k, |text|);
    }
  }
}
