/** The key-value example: an ordered map, and a prefix scan that stops at the first key past it. */
module KvStore {
  import opened Types

  /** Strings as their UTF-8 bytes: `String` orders and matches prefixes by bytes. */
  type Text = Bytes

  /** The order of the map: byte by byte, a prefix before what extends it. */
  predicate TextLe(a: Text, b: Text) {
    a == [] || (b != [] && (a[0] < b[0] || (a[0] == b[0] && TextLe(a[1..], b[1..]))))
  }

  predicate TextLt(a: Text, b: Text) {
    TextLe(a, b) && a != b
  }

  lemma {:induction false} TextLeIsTotal(a: Text, b: Text)
    ensures TextLe(a, b) || TextLe(b, a)
    ensures TextLe(a, b) && TextLe(b, a) ==> a == b
  {
    if a != [] && b != [] && a[0] == b[0] {
      TextLeIsTotal(a[1..], b[1..]);
      assert a == [a[0]] + a[1..] && b == [b[0]] + b[1..];
    }
  }

  lemma {:induction false} TextLeIsTransitive(a: Text, b: Text, c: Text)
    requires TextLe(a, b) && TextLe(b, c)
    ensures TextLe(a, c)
  {
    if a != [] && a[0] == b[0] == c[0] {
      TextLeIsTransitive(a[1..], b[1..], c[1..]);
    }
  }

  /** A key that starts with a prefix is not below it. */
  lemma {:induction false} PrefixIsBelow(prefix: Text, key: Text)
    requires prefix <= key
    ensures TextLe(prefix, key)
  {
    if prefix != [] {
      assert prefix[1..] <= key[1..];
      PrefixIsBelow(prefix[1..], key[1..]);
    }
  }

  /** The keys that start with a prefix lie together: nothing between the prefix and one of them lacks
      it. */
  lemma {:induction false} PrefixedLieTogether(prefix: Text, between: Text, key: Text)
    requires TextLe(prefix, between) && TextLe(between, key) && prefix <= key
    ensures prefix <= between
  {
    if prefix != [] {
      assert prefix[0] <= between[0] <= key[0] == prefix[0];
      assert prefix[1..] <= key[1..];
      PrefixedLieTogether(prefix[1..], between[1..], key[1..]);
      assert between == [between[0]] + between[1..];
    }
  }

  // ----- the map as it is walked ---------------------------------------------------------------

  type Pair = (Text, Text)

  /** Strictly ascending keys. */
  ghost predicate Ascending(entries: seq<Pair>) {
    forall i, j :: 0 <= i < j < |entries| ==> TextLt(entries[i].0, entries[j].0)
  }

  /** The map a walk collects into. */
  function Collected(entries: seq<Pair>): map<Text, Text> {
    if entries == [] then map[]
    else Collected(entries[..|entries| - 1])[entries[|entries| - 1].0 := entries[|entries| - 1].1]
  }

  /** Collecting ascending pairs loses none and invents none. */
  lemma {:induction false} CollectedHas(entries: seq<Pair>)
    requires Ascending(entries)
    ensures forall p :: p in entries ==> p.0 in Collected(entries) && Collected(entries)[p.0] == p.1
    ensures forall k :: k in Collected(entries) ==> (k, Collected(entries)[k]) in entries
  {
    if entries != [] {
      var front, last := entries[..|entries| - 1], entries[|entries| - 1];
      CollectedHas(front);
      assert entries == front + [last];
      forall p | p in front
        ensures p.0 != last.0
      {
        var i :| 0 <= i < |front| && front[i] == p;
        assert TextLt(entries[i].0, entries[|entries| - 1].0);
      }
    }
  }

  /** `range(from..)`: the walk from the first key not below `from`. */
  function From(entries: seq<Pair>, from: Text): seq<Pair> {
    if entries == [] || TextLe(from, entries[0].0) then entries else From(entries[1..], from)
  }

  /** `take_while(starts_with)`. */
  function WhilePrefixed(entries: seq<Pair>, prefix: Text): seq<Pair> {
    if entries == [] || !(prefix <= entries[0].0) then []
    else [entries[0]] + WhilePrefixed(entries[1..], prefix)
  }

  /** Every pair whose key starts with the prefix, found by looking at all of them. */
  function AllPrefixed(entries: seq<Pair>, prefix: Text): seq<Pair> {
    if entries == [] then []
    else (if prefix <= entries[0].0 then [entries[0]] else []) + AllPrefixed(entries[1..], prefix)
  }

  lemma {:induction false} NonePrefixed(entries: seq<Pair>, prefix: Text)
    requires forall i :: 0 <= i < |entries| ==> !(prefix <= entries[i].0)
    ensures AllPrefixed(entries, prefix) == []
  {
    if entries != [] {
      NonePrefixed(entries[1..], prefix);
    }
  }

  /** Past the prefix's first key, stopping at the first mismatch misses nothing. */
  lemma {:induction false} StoppingMissesNothing(entries: seq<Pair>, prefix: Text)
    requires Ascending(entries)
    requires entries != [] ==> TextLe(prefix, entries[0].0)
    ensures WhilePrefixed(entries, prefix) == AllPrefixed(entries, prefix)
  {
    if entries != [] {
      if prefix <= entries[0].0 {
        if |entries| > 1 {
          TextLeIsTransitive(prefix, entries[0].0, entries[1].0);
        }
        StoppingMissesNothing(entries[1..], prefix);
      } else {
        forall i | 0 <= i < |entries|
          ensures !(prefix <= entries[i].0)
        {
          if i > 0 && prefix <= entries[i].0 {
            PrefixedLieTogether(prefix, entries[0].0, entries[i].0);
          }
        }
        NonePrefixed(entries, prefix);
      }
    }
  }

  /** The scan is a filter of the whole map. */
  lemma {:induction false} ScanIsFilter(entries: seq<Pair>, prefix: Text)
    requires Ascending(entries)
    ensures WhilePrefixed(From(entries, prefix), prefix) == AllPrefixed(entries, prefix)
  {
    if entries == [] || TextLe(prefix, entries[0].0) {
      StoppingMissesNothing(entries, prefix);
    } else {
      if prefix <= entries[0].0 {
        PrefixIsBelow(prefix, entries[0].0);
      }
      ScanIsFilter(entries[1..], prefix);
    }
  }

  lemma {:induction false} AllPrefixedIsAscending(entries: seq<Pair>, prefix: Text)
    requires Ascending(entries)
    ensures Ascending(AllPrefixed(entries, prefix))
    ensures forall p :: p in AllPrefixed(entries, prefix) <==> p in entries && prefix <= p.0
  {
    if entries != [] {
      AllPrefixedIsAscending(entries[1..], prefix);
      assert entries == [entries[0]] + entries[1..];
      var rest := AllPrefixed(entries[1..], prefix);
      forall i | 0 <= i < |rest|
        ensures TextLt(entries[0].0, rest[i].0)
      {
        assert rest[i] in rest;
        var j :| 0 <= j < |entries[1..]| && entries[1..][j] == rest[i];
        assert entries[1 + j] == rest[i];
      }
    }
  }

  /** What the scan collects: exactly the entries of the map whose key starts with the prefix. */
  lemma ScanCollects(entries: seq<Pair>, prefix: Text)
    requires Ascending(entries)
    ensures Collected(WhilePrefixed(From(entries, prefix), prefix))
            == map k | k in Collected(entries) && prefix <= k :: Collected(entries)[k]
  {
    ScanIsFilter(entries, prefix);
    AllPrefixedIsAscending(entries, prefix);
    var found, all := AllPrefixed(entries, prefix), Collected(entries);
    CollectedHas(entries);
    CollectedHas(found);
    forall k | k in Collected(found)
      ensures k in all && prefix <= k && Collected(found)[k] == all[k]
    {
      assert (k, Collected(found)[k]) in found;
    }
    forall k | k in all && prefix <= k
      ensures k in Collected(found)
    {
      assert (k, all[k]) in entries;
      assert (k, all[k]) in found;
    }
  }

  // ----- the application -----------------------------------------------------------------------

  datatype Write = Set(key: Text, value: Text) | Delete(key: Text)

  datatype Query = Get(key: Text) | Prefix(prefix: Text)

  function LookedUp(m: map<Text, Text>, key: Text): Option<Text> {
    if key in m then Some(m[key]) else None
  }

  /** Where a key is, or would go. */
  function Position(entries: seq<Pair>, key: Text): (i: nat)
    ensures i <= |entries|
    ensures forall j :: 0 <= j < i ==> !TextLe(key, entries[j].0)
    ensures i < |entries| ==> TextLe(key, entries[i].0)
  {
    if entries == [] || TextLe(key, entries[0].0) then 0 else 1 + Position(entries[1..], key)
  }

  class KvApp {
    var entries: seq<Pair>  // the map, in the order it is walked

    ghost predicate Valid()
      reads this
    {
      Ascending(entries)
    }

    function Data(): map<Text, Text>
      reads this
    {
      Collected(entries)
    }

    constructor ()
      ensures Valid() && Data() == map[]
    {
      entries := [];
    }

    /** Writes, and answers with the value that was replaced or removed. */
    method Apply(write: Write) returns (replaced: Option<Text>)
      requires Valid()
      modifies this
      ensures Valid()
      ensures replaced == LookedUp(old(Data()), write.key)
      ensures Data() == match write
                        case Set(key, value) => old(Data())[key := value]
                        case Delete(key) => old(Data()) - {key}
    {
      var i := Position(entries, write.key);
      PositionFinds(entries, write.key);
      var present := i < |entries| && entries[i].0 == write.key;
      replaced := if present then Some(entries[i].1) else None;
      var rest := if present then entries[i + 1..] else entries[i..];
      var put := match write
                 case Set(key, value) => [(key, value)]
                 case Delete(_) => [];
      SpliceCollects(entries, write.key, i, rest, put);
      entries := entries[..i] + put + rest;
    }

    method Read(query: Query) returns (found: map<Text, Text>)
      requires Valid()
      ensures found == match query
                       case Get(key) => map k | k in Data() && k == key :: Data()[k]
                       case Prefix(prefix) => map k | k in Data() && prefix <= k :: Data()[k]
    {
      match query {
        case Get(key) =>
          PositionFinds(entries, key);
          var i := Position(entries, key);
          found := if i < |entries| && entries[i].0 == key then map[key := entries[i].1] else map[];
        case Prefix(prefix) =>
          ScanCollects(entries, prefix);
          found := Collected(WhilePrefixed(From(entries, prefix), prefix));
      }
    }
  }

  lemma PositionFinds(entries: seq<Pair>, key: Text)
    requires Ascending(entries)
    ensures var i := Position(entries, key);
            LookedUp(Collected(entries), key)
            == if i < |entries| && entries[i].0 == key then Some(entries[i].1) else None
  {
    CollectedHas(entries);
    var i := Position(entries, key);
    if i < |entries| && entries[i].0 == key {
      assert entries[i] in entries;
    } else if key in Collected(entries) {
      var p := (key, Collected(entries)[key]);
      assert p in entries;
      var j :| 0 <= j < |entries| && entries[j] == p;
      TextLeIsTotal(key, key);
      assert i < j;
      TextLeIsTotal(key, entries[i].0);
      assert false;
    }
  }

  /** Everything before the place of a key is below it. */
  lemma BelowPosition(entries: seq<Pair>, key: Text, i: nat)
    requires i == Position(entries, key)
    ensures forall j :: 0 <= j < i ==> TextLt(entries[j].0, key)
  {
    forall j | 0 <= j < i
      ensures TextLt(entries[j].0, key)
    {
      TextLeIsTotal(key, entries[j].0);
      TextLeIsTotal(key, key);
    }
  }

  /** Everything kept after the place of a key is above it. */
  lemma AbovePosition(entries: seq<Pair>, key: Text, i: nat, j: nat)
    requires Ascending(entries) && i == Position(entries, key) && i <= j < |entries|
    requires i == j ==> entries[i].0 != key
    ensures TextLt(key, entries[j].0)
  {
    if i < j {
      assert TextLt(entries[i].0, entries[j].0);
      TextLeIsTransitive(key, entries[i].0, entries[j].0);
      TextLeIsTotal(entries[i].0, entries[j].0);
    }
  }

  /** What is kept after the place of a key: the entries from there, less the key's own. */
  ghost predicate IsRest(entries: seq<Pair>, key: Text, i: nat, rest: seq<Pair>) {
    && i == Position(entries, key)
    && rest == if i < |entries| && entries[i].0 == key then entries[i + 1..] else entries[i..]
  }

  lemma KeyDivides(entries: seq<Pair>, key: Text, i: nat, rest: seq<Pair>)
    requires Ascending(entries) && IsRest(entries, key, i, rest)
    ensures forall j :: 0 <= j < i ==> TextLt(entries[j].0, key)
    ensures forall j :: 0 <= j < |rest| ==> TextLt(key, rest[j].0)
    ensures Ascending(entries[..i]) && Ascending(rest)
  {
    BelowPosition(entries, key, i);
    var skip := |entries| - |rest|;
    forall j | 0 <= j < |rest|
      ensures TextLt(key, rest[j].0)
    {
      assert rest[j] == entries[skip + j];
      AbovePosition(entries, key, i, skip + j);
    }
    TailIsAscending(entries, skip);
  }

  lemma TailIsAscending(entries: seq<Pair>, skip: nat)
    requires Ascending(entries) && skip <= |entries|
    ensures Ascending(entries[skip..])
  {
    forall j, k | 0 <= j < k < |entries[skip..]|
      ensures TextLt(entries[skip..][j].0, entries[skip..][k].0)
    {
      assert entries[skip..][j] == entries[skip + j] && entries[skip..][k] == entries[skip + k];
    }
  }

  /** Putting a pair, or none, where the key is or would go. */
  lemma SpliceCollects(entries: seq<Pair>, key: Text, i: nat, rest: seq<Pair>, put: seq<Pair>)
    requires Ascending(entries) && IsRest(entries, key, i, rest)
    requires |put| <= 1 && (put != [] ==> put[0].0 == key)
    ensures Ascending(entries[..i] + put + rest)
    ensures Collected(entries[..i] + put + rest)
            == if put == [] then Collected(entries) - {key} else Collected(entries)[key := put[0].1]
  {
    KeyDivides(entries, key, i, rest);
    SpliceIsAscending(entries[..i], put, rest, key);
    SplicePairs(entries, key, i, rest, put);
    PairsCollect(entries, key, put, entries[..i] + put + rest);
  }

  /** Ascending pairs that differ at one key collect into maps that differ at that key. */
  lemma PairsCollect(entries: seq<Pair>, key: Text, put: seq<Pair>, after: seq<Pair>)
    requires Ascending(entries) && Ascending(after) && |put| <= 1 && (put != [] ==> put[0].0 == key)
    requires forall p :: p in after <==> p in put || (p in entries && p.0 != key)
    ensures Collected(after)
            == if put == [] then Collected(entries) - {key} else Collected(entries)[key := put[0].1]
  {
    var all, now := Collected(entries), Collected(after);
    forall k
      ensures LookedUp(now, k) == if k != key then LookedUp(all, k)
                                  else if put == [] then None else Some(put[0].1)
    {
      if k == key {
        PutIsFound(put, after, key);
      } else {
        OthersStay(entries, after, k);
      }
    }
    SameLookups(now, if put == [] then all - {key} else all[key := put[0].1]);
  }

  lemma LookedUpMeans(entries: seq<Pair>, k: Text, v: Text)
    requires Ascending(entries)
    ensures LookedUp(Collected(entries), k) == Some(v) <==> (k, v) in entries
  {
    CollectedHas(entries);
  }

  lemma PutIsFound(put: seq<Pair>, after: seq<Pair>, key: Text)
    requires Ascending(after) && |put| <= 1 && (put != [] ==> put[0].0 == key)
    requires forall v :: (key, v) in after <==> (key, v) in put
    ensures LookedUp(Collected(after), key) == if put == [] then None else Some(put[0].1)
  {
    if put != [] {
      assert put[0] == (key, put[0].1);
      LookedUpMeans(after, key, put[0].1);
    } else if key in Collected(after) {
      LookedUpMeans(after, key, Collected(after)[key]);
    }
  }

  lemma OthersStay(entries: seq<Pair>, after: seq<Pair>, k: Text)
    requires Ascending(entries) && Ascending(after)
    requires forall v :: (k, v) in after <==> (k, v) in entries
    ensures LookedUp(Collected(after), k) == LookedUp(Collected(entries), k)
  {
    if k in Collected(after) {
      LookedUpMeans(after, k, Collected(after)[k]);
      LookedUpMeans(entries, k, Collected(after)[k]);
    } else if k in Collected(entries) {
      LookedUpMeans(entries, k, Collected(entries)[k]);
      LookedUpMeans(after, k, Collected(entries)[k]);
    }
  }

  lemma SameLookups(m: map<Text, Text>, n: map<Text, Text>)
    requires forall k :: LookedUp(m, k) == LookedUp(n, k)
    ensures m == n
  {
    forall k | k in m
      ensures k in n && m[k] == n[k]
    {
      assert LookedUp(m, k) == LookedUp(n, k);
    }
    forall k | k in n
      ensures k in m
    {
      assert LookedUp(m, k) == LookedUp(n, k);
    }
  }

  lemma SpliceIsAscending(front: seq<Pair>, put: seq<Pair>, rest: seq<Pair>, key: Text)
    requires Ascending(front) && Ascending(rest) && |put| <= 1 && (put != [] ==> put[0].0 == key)
    requires forall j :: 0 <= j < |front| ==> TextLt(front[j].0, key)
    requires forall j :: 0 <= j < |rest| ==> TextLt(key, rest[j].0)
    ensures Ascending(front + put + rest)
  {
    var all := front + put + rest;
    forall i, j | 0 <= i < j < |all|
      ensures TextLt(all[i].0, all[j].0)
    {
      if i < |front| && j >= |front| + |put| {
        TextLeIsTransitive(all[i].0, key, all[j].0);
        TextLeIsTotal(all[i].0, key);
      }
    }
  }

  /** The pairs after a splice: those of another key, and what was put. */
  lemma SplicePairs(entries: seq<Pair>, key: Text, i: nat, rest: seq<Pair>, put: seq<Pair>)
    requires IsRest(entries, key, i, rest)
    requires forall j :: 0 <= j < i ==> TextLt(entries[j].0, key)
    requires forall j :: 0 <= j < |rest| ==> TextLt(key, rest[j].0)
    ensures forall p :: p in entries[..i] + put + rest <==> p in put || (p in entries && p.0 != key)
  {
    forall p | p in entries && p.0 != key
      ensures p in entries[..i] || p in rest
    {
      var e :| 0 <= e < |entries| && entries[e] == p;
      if e < i {
        assert entries[..i][e] == p;
      } else {
        assert rest[e - (|entries| - |rest|)] == p;
      }
    }
  }
}
