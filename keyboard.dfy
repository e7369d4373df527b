/** The CHIP-8 keypad: a table from key to "is pressed". */
module Keys {
  import opened DataTypes

  /** The Key enumeration is an int-backed enum class; a key is its ordinal.
      NONE is -1 and K0..KF are 0..15. Casting a register value to Key gives any ordinal
      0..255, most of which name no enumerator. */
  type Key = int

  const NONE: Key := -1
  const K0: Key := 0
  const KF: Key := 15

  /** The only error is_key_pressed raises: the key has no entry in the table (std::out_of_range from at()). */
  datatype KeyError = KeyAbsent(key: Key)

  /** A table in which all sixteen keypad keys have an entry. */
  predicate HasAllKeys(statuses: map<Key, bool>)
  {
    forall k :: K0 <= k <= KF ==> k in statuses
  }

  /** is_key_pressed as a function of the table. */
  function Pressed(statuses: map<Key, bool>, k: Key): (r: Result<bool, KeyError>)
    ensures r.Ok? <==> k in statuses
    ensures r.Ok? ==> r.value == statuses[k]
    ensures r.Err? ==> r.error == KeyAbsent(k)
  {
    if k in statuses then Ok(statuses[k]) else Err(KeyAbsent(k))
  }

  class Keyboard {
    var statuses: map<Key, bool>

    ghost predicate Valid()
      reads this
    {
      HasAllKeys(statuses)
    }

    /** Enters K0..KF, all released. */
    constructor ()
      ensures Valid()
      ensures forall k :: k in statuses <==> K0 <= k <= KF
      ensures forall k :: k in statuses ==> !statuses[k]
    {
      statuses := map[];
      new;
      var k := K0;
      while k <= KF
        invariant K0 <= k <= KF + 1
        invariant forall k' :: k' in statuses <==> K0 <= k' < k
        invariant forall k' :: k' in statuses ==> !statuses[k']
      {
        statuses := statuses[k := false];
        k := k + 1;
      }
    }

    method SetKeyPressed(k: Key)
      requires Valid()
      modifies this
      ensures Valid()
      ensures statuses == old(statuses)[k := true]
    {
      statuses := statuses[k := true];
    }

    method SetKeyReleased(k: Key)
      requires Valid()
      modifies this
      ensures Valid()
      ensures statuses == old(statuses)[k := false]
    {
      statuses := statuses[k := false];
    }

    /** Reads the table without changing it; a key without an entry is an error. */
    method IsKeyPressed(k: Key) returns (r: Result<bool, KeyError>)
      ensures r == Pressed(statuses, k)
    {
      if k in statuses {
        r := Ok(statuses[k]);
      } else {
        r := Err(KeyAbsent(k));
      }
    }
  }

  /** After pressing k, k reads as pressed; after releasing it, as released. */
  lemma SetThenQuery(statuses: map<Key, bool>, k: Key)
    ensures Pressed(statuses[k := true], k) == Ok(true)
    ensures Pressed(statuses[k := false], k) == Ok(false)
  {
  }

  /** A setter changes the status of k only: every other key reads as before. */
  lemma SetterChangesOnlyItsKey(statuses: map<Key, bool>, k: Key, other: Key, pressed: bool)
    requires other != k
    ensures Pressed(statuses[k := pressed], other) == Pressed(statuses, other)
  {
  }

  /** Setting the same status twice is the same as setting it once. */
  lemma SetterIdempotent(statuses: map<Key, bool>, k: Key, pressed: bool)
    ensures statuses[k := pressed][k := pressed] == statuses[k := pressed]
  {
  }

  /** NONE is never entered by the constructor, so querying it before any setter has
      entered it is an error. */
  lemma NoneAbsentInitially(statuses: map<Key, bool>)
    requires forall k :: k in statuses <==> K0 <= k <= KF
    ensures Pressed(statuses, NONE) == Err(KeyAbsent(NONE))
  {
  }
}
