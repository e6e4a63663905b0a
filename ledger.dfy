/** Small failure-carrying wrappers shared by the other modules. */
module Results {
  datatype Option<+T> = None | Some(value: T)

  datatype Result<+T, +E> = Ok(value: T) | Err(error: E)
}

/**
  The award ledger as the JavaScript object that `parseAwards` fills in and
  `updateAwards` assigns to: an ordered dictionary from user id to count.
  Keys keep the position of their first insertion; assigning to a key that is
  already present overwrites its value in place.
*/
module Ledger {
  import opened Results

  datatype Entry = Entry(userId: string, count: nat)

  type Awards = seq<Entry>

  /** Object keys are unique: no user id occurs twice. */
  predicate Distinct(awards: Awards) {
    forall i, j :: 0 <= i < j < |awards| ==> awards[i].userId != awards[j].userId
  }

  /** The user ids an entry list mentions. */
  function Ids(awards: Awards): set<string> {
    set e | e in awards :: e.userId
  }

  /** The map an entry list denotes; a later entry for the same id wins. */
  function ToMap(awards: Awards): map<string, nat> {
    if awards == [] then map[]
    else
      var last := awards[|awards| - 1];
      ToMap(awards[..|awards| - 1])[last.userId := last.count]
  }

  /** The map view has exactly the ids the list mentions as keys. */
  lemma {:induction false} ToMapKeys(awards: Awards)
    ensures ToMap(awards).Keys == Ids(awards)
  {
    if awards != [] {
      var n := |awards| - 1;
      ToMapKeys(awards[..n]);
      assert awards == awards[..n] + [awards[n]];
      assert Ids(awards) == Ids(awards[..n]) + {awards[n].userId};
    }
  }

  /** Appending an entry updates the map view at that entry's id. */
  lemma ToMapSnoc(awards: Awards, e: Entry)
    ensures ToMap(awards + [e]) == ToMap(awards)[e.userId := e.count]
  {
    assert (awards + [e])[..|awards|] == awards;
  }

  /** The map view of a list depends on a prefix only through the prefix's map view. */
  lemma {:induction false} ToMapSameSuffix(a: Awards, b: Awards, suffix: Awards)
    requires ToMap(a) == ToMap(b)
    ensures ToMap(a + suffix) == ToMap(b + suffix)
    decreases |suffix|
  {
    if suffix == [] {
      assert a + suffix == a && b + suffix == b;
    } else {
      var n := |suffix| - 1;
      var last := suffix[n];
      ToMapSameSuffix(a, b, suffix[..n]);
      assert a + suffix == (a + suffix[..n]) + [last];
      assert b + suffix == (b + suffix[..n]) + [last];
      ToMapSnoc(a + suffix[..n], last);
      ToMapSnoc(b + suffix[..n], last);
    }
  }

  /** The count a map holds for a user, with a missing user counting as 0
      (the `awards[userId] || 0` of the source). */
  function Balance(m: map<string, nat>, userId: string): nat {
    if userId in m then m[userId] else 0
  }

  /** Position of the entry for `userId`, or `|awards|` when there is none. */
  function IndexOf(awards: Awards, userId: string): (i: nat)
    ensures i <= |awards|
    ensures i < |awards| ==> awards[i].userId == userId
    ensures forall j :: 0 <= j < i ==> awards[j].userId != userId
  {
    if awards == [] || awards[0].userId == userId then 0
    else 1 + IndexOf(awards[1..], userId)
  }

  /** On a ledger with unique keys, the map view holds each entry's own count. */
  lemma {:induction false} ToMapAt(awards: Awards, i: nat)
    requires i < |awards|
    ensures Distinct(awards) ==> awards[i].userId in ToMap(awards) && ToMap(awards)[awards[i].userId] == awards[i].count
    decreases |awards|
  {
    var n := |awards| - 1;
    if Distinct(awards) && i < n {
      var prefix := awards[..n];
      assert prefix[i] == awards[i];
      assert Distinct(prefix);
      ToMapAt(prefix, i);
      assert awards[n].userId != awards[i].userId;
    }
  }

  /** `awards[userId]` read: the stored count, or None where JavaScript
      yields `undefined`. On a ledger with unique keys it agrees with the map view. */
  function Get(awards: Awards, userId: string): (r: Option<nat>)
    ensures Distinct(awards) ==> r == if userId in ToMap(awards) then Some(ToMap(awards)[userId]) else None
  {
    var i := IndexOf(awards, userId);
    ToMapKeys(awards);
    assert i < |awards| ==> awards[i] in awards;
    if i < |awards| then
      ToMapAt(awards, i);
      Some(awards[i].count)
    else None
  }

  lemma UpdateCommutes(m: map<string, nat>, a: string, x: nat, b: string, y: nat)
    requires a != b
    ensures m[a := x][b := y] == m[b := y][a := x]
  {
  }

  lemma UpdateTwice(m: map<string, nat>, a: string, x: nat, y: nat)
    ensures m[a := x][a := y] == m[a := y]
  {
  }

  /** Overwriting the count of an entry in place updates the map view at its id. */
  lemma {:induction false} ToMapReplace(awards: Awards, i: nat, count: nat)
    requires i < |awards|
    ensures Distinct(awards) ==> ToMap(awards[i := Entry(awards[i].userId, count)]) == ToMap(awards)[awards[i].userId := count]
    decreases |awards|
  {
    if !Distinct(awards) {
      return;
    }
    var n := |awards| - 1;
    var k := awards[i].userId;
    var updated := awards[i := Entry(k, count)];
    var prefix, last := awards[..n], awards[n];
    assert awards == prefix + [last];
    if i == n {
      assert updated == prefix + [Entry(k, count)];
      ToMapSnoc(prefix, Entry(k, count));
      ToMapSnoc(prefix, last);
      UpdateTwice(ToMap(prefix), k, last.count, count);
    } else {
      var prefix' := prefix[i := Entry(k, count)];
      assert updated == prefix' + [last];
      assert prefix[i] == awards[i];
      assert Distinct(prefix);
      ToMapReplace(prefix, i, count);
      ToMapSnoc(prefix', last);
      ToMapSnoc(prefix, last);
      UpdateCommutes(ToMap(prefix), k, count, last.userId, last.count);
    }
  }

  /** `awards[userId] = count`: overwrite the count in place when the user is
      present, append a new entry at the end otherwise. */
  function Put(awards: Awards, userId: string, count: nat): (r: Awards)
    ensures userId in ToMap(awards) ==> |r| == |awards|
    ensures userId !in ToMap(awards) ==> r == awards + [Entry(userId, count)]
    ensures forall j :: 0 <= j < |r| ==> r[j] == Entry(userId, count) || (j < |awards| && r[j] == awards[j])
    ensures Distinct(awards) ==> Distinct(r) && ToMap(r) == ToMap(awards)[userId := count]
  {
    var i := IndexOf(awards, userId);
    if i < |awards| then
      PutPresent(awards, i, count);
      awards[i := Entry(userId, count)]
    else
      PutAbsent(awards, Entry(userId, count));
      awards + [Entry(userId, count)]
  }

  /** Overwriting a present key keeps the key set and the other entries. */
  lemma PutPresent(awards: Awards, i: nat, count: nat)
    requires i < |awards|
    ensures awards[i].userId in ToMap(awards)
    ensures var r := awards[i := Entry(awards[i].userId, count)];
            Distinct(awards) ==> Distinct(r) && ToMap(r) == ToMap(awards)[awards[i].userId := count]
  {
    ToMapKeys(awards);
    assert awards[i] in awards;
    ToMapReplace(awards, i, count);
  }

  /** Appending an entry with a new key keeps the keys unique. */
  lemma PutAbsent(awards: Awards, e: Entry)
    requires forall j :: 0 <= j < |awards| ==> awards[j].userId != e.userId
    ensures e.userId !in ToMap(awards)
    ensures Distinct(awards) ==> Distinct(awards + [e]) && ToMap(awards + [e]) == ToMap(awards)[e.userId := e.count]
  {
    ToMapKeys(awards);
    ToMapSnoc(awards, e);
  }
}
