// The bounded in-memory cache: entries expire, and the least recently used one is evicted.
module TtlCache {
  import opened Prelude

  datatype Entry<V> = Entry(key: string, value: V, expires: real)

  // An ordered dictionary: distinct keys, least recently used first.
  type Table<V> = seq<Entry<V>>

  ghost predicate Distinct<V>(table: Table<V>) {
    forall i, j :: 0 <= i < j < |table| ==> table[i].key != table[j].key
  }

  // The position of a key, or the length of the table.
  function Position<V>(table: Table<V>, key: string): (i: nat)
    ensures i <= |table|
    ensures i < |table| ==> table[i].key == key
    ensures forall j :: 0 <= j < i ==> table[j].key != key
  {
    if table == [] || table[0].key == key then 0 else 1 + Position(table[1..], key)
  }

  function Without<V>(table: Table<V>, key: string): Table<V> {
    var i := Position(table, key);
    if i < |table| then table[..i] + table[i + 1..] else table
  }

  // All entries but those of the key, in order.
  function Others<V>(table: Table<V>, key: string): Table<V> {
    if table == [] then []
    else (if table[0].key == key then [] else [table[0]]) + Others(table[1..], key)
  }

  // The value a read finds.
  function Found<V>(table: Table<V>, key: string, now: real): Option<V> {
    var i := Position(table, key);
    if i < |table| && now <= table[i].expires then Some(table[i].value) else None
  }

  // A hit moves the entry to the back, an expired entry is dropped.
  function AfterGet<V>(table: Table<V>, key: string, now: real): Table<V> {
    var i := Position(table, key);
    if i == |table| then table
    else if now <= table[i].expires then Without(table, key) + [table[i]]
    else Without(table, key)
  }

  // A write goes to the back, and what then exceeds the bound is dropped from the front.
  function AfterSet<V>(table: Table<V>, key: string, value: V, now: real, ttl: real, maxsize: nat): Table<V> {
    Newest(Without(table, key) + [Entry(key, value, now + ttl)], maxsize)
  }

  function Newest<V>(table: Table<V>, maxsize: nat): Table<V> {
    if |table| <= maxsize then table else table[|table| - maxsize..]
  }

  class TTLCache<V> {
    const ttl: real
    const maxsize: nat
    var data: Table<V>

    ghost predicate Valid()
      reads this
    {
      Distinct(data) && |data| <= maxsize
    }

    constructor (ttl: real, maxsize: nat)
      ensures this.ttl == ttl && this.maxsize == maxsize && data == [] && Valid()
    {
      this.ttl := ttl;
      this.maxsize := maxsize;
      data := [];
    }

    method Get(key: string, now: real) returns (value: Option<V>)
      requires Valid()
      modifies this`data
      ensures Valid()
      ensures value == Found(old(data), key, now) && data == AfterGet(old(data), key, now)
    {
      GetKeepsTable(data, key, now);
      hide Distinct;
      var i := Position(data, key);
      if i == |data| {
        return None;
      }
      var entry := data[i];
      data := data[..i] + data[i + 1..];
      if now > entry.expires {
        return None;
      }
      data := data + [entry];
      return Some(entry.value);
    }

    method Set(key: string, value: V, now: real)
      requires Valid()
      modifies this`data
      ensures Valid()
      ensures data == AfterSet(old(data), key, value, now, ttl, maxsize)
    {
      SetKeepsTable(data, key, value, now, ttl, maxsize);
      hide Without, Distinct;
      data := Without(data, key) + [Entry(key, value, now + ttl)];
      ghost var full := data;
      while |data| > maxsize
        invariant |full| <= maxsize ==> data == full
        invariant |full| > maxsize ==> maxsize <= |data| <= |full| && data == full[|full| - |data|..]
      {
        data := data[1..];
      }
    }

    method Delete(key: string)
      requires Valid()
      modifies this`data
      ensures Valid() && data == Without(old(data), key)
      ensures data == Others(old(data), key)
      ensures forall e :: e in data <==> e in old(data) && e.key != key
    {
      WithoutIsDistinct(data, key);
      WithoutIsOthers(data, key);
      var i := Position(data, key);
      if i < |data| {
        data := data[..i] + data[i + 1..];
      }
    }

    method Clear()
      modifies this`data
      ensures Valid() && data == []
    {
      data := [];
    }
  }

  lemma WithoutIsDistinct<V>(table: Table<V>, key: string)
    requires Distinct(table)
    ensures Distinct(Without(table, key)) && |Without(table, key)| <= |table|
    ensures forall e :: e in Without(table, key) <==> e in table && e.key != key
  {
    var i := Position(table, key);
    if i < |table| {
      var out := Without(table, key);
      forall e | e in table && e.key != key ensures e in out {
        var j :| 0 <= j < |table| && table[j] == e;
        assert e == out[if j < i then j else j - 1];
      }
    }
  }

  // Taking away the first entry of a key takes away all there is of it, and leaves the rest in
  // order.
  lemma {:induction false} WithoutIsOthers<V>(table: Table<V>, key: string)
    requires Distinct(table)
    ensures Without(table, key) == Others(table, key)
  {
    if table == [] {
    } else if table[0].key == key {
      NoOthers(table[1..], key);
    } else {
      WithoutIsOthers(table[1..], key);
      WithoutByFirst(table, key);
    }
  }

  lemma WithoutByFirst<V>(table: Table<V>, key: string)
    requires table != [] && table[0].key != key
    ensures Without(table, key) == [table[0]] + Without(table[1..], key)
  {
    var i, rest := Position(table, key), table[1..];
    assert i == 1 + Position(rest, key);
    hide Position;
    assert table == [table[0]] + rest;
    if i < |table| {
      assert table[..i] == [table[0]] + rest[..i - 1];
      assert table[i + 1..] == rest[i..];
    }
  }

  lemma {:induction false} NoOthers<V>(table: Table<V>, key: string)
    requires forall j :: 0 <= j < |table| ==> table[j].key != key
    ensures Others(table, key) == table
  {
    if table == [] {
    } else {
      NoOthers(table[1..], key);
    }
  }

  lemma AppendIsDistinct<V>(table: Table<V>, e: Entry<V>)
    requires Distinct(table) && forall r :: r in table ==> r.key != e.key
    ensures Distinct(table + [e])
  {
    var longer := table + [e];
    forall i, j | 0 <= i < j < |longer| ensures longer[i].key != longer[j].key {
      if j == |table| {
        assert table[i] in table;
      }
    }
  }

  lemma NewestIsDistinct<V>(table: Table<V>, maxsize: nat)
    requires Distinct(table)
    ensures Distinct(Newest(table, maxsize)) && |Newest(table, maxsize)| <= maxsize
    ensures forall e :: e in Newest(table, maxsize) ==> e in table
  {
  }

  lemma {:induction false} SetKeepsTable<V>(table: Table<V>, key: string, value: V, now: real, ttl: real, maxsize: nat)
    requires Distinct(table)
    ensures
      var after := AfterSet(table, key, value, now, ttl, maxsize);
      && Distinct(after) && |after| <= maxsize
      && forall e :: e in after ==> e == Entry(key, value, now + ttl) || (e in table && e.key != key)
  {
    WithoutIsDistinct(table, key);
    hide Without, Distinct, Newest;
    AppendIsDistinct(Without(table, key), Entry(key, value, now + ttl));
    NewestIsDistinct(Without(table, key) + [Entry(key, value, now + ttl)], maxsize);
  }

  lemma GetKeepsTable<V>(table: Table<V>, key: string, now: real)
    requires Distinct(table)
    ensures Distinct(AfterGet(table, key, now)) && |AfterGet(table, key, now)| <= |table|
    ensures forall e :: e in AfterGet(table, key, now) ==> e in table
  {
    hide Distinct, Position;
    WithoutIsDistinct(table, key);
    var i := Position(table, key);
    if i < |table| {
      assert |Without(table, key)| == |table| - 1;
      AppendIsDistinct(Without(table, key), table[i]);
    }
    hide Without;
  }

  // What was set is found until it expires.
  lemma SetIsFound<V>(table: Table<V>, key: string, value: V, now: real, ttl: real, maxsize: nat, later: real)
    requires Distinct(table) && maxsize > 0 && later <= now + ttl
    ensures Found(AfterSet(table, key, value, now, ttl, maxsize), key, later) == Some(value)
  {
    SetKeepsTable(table, key, value, now, ttl, maxsize);
    var after := AfterSet(table, key, value, now, ttl, maxsize);
    assert after[|after| - 1] == Entry(key, value, now + ttl) by { hide Without, Position, Distinct; }
    hide AfterSet;
    PositionOfLast(after);
  }

  // A read by the positions of the table: a live entry is found and moved to the back, an expired
  // one is dropped, and a missing key changes nothing.
  lemma GetMeans<V>(table: Table<V>, key: string, now: real, i: nat)
    requires Distinct(table)
    ensures i < |table| && table[i].key == key ==>
      && Found(table, key, now) == (if now <= table[i].expires then Some(table[i].value) else None)
      && AfterGet(table, key, now) ==
           table[..i] + table[i + 1..] + if now <= table[i].expires then [table[i]] else []
    ensures (forall j :: 0 <= j < |table| ==> table[j].key != key) ==>
      Found(table, key, now) == None && AfterGet(table, key, now) == table
  {
  }

  // So what a read finds is the live entry of the key, wherever it is.
  lemma FoundIsLive<V>(table: Table<V>, key: string, now: real)
    requires Distinct(table)
    ensures forall e :: e in table && e.key == key && now <= e.expires ==> Found(table, key, now) == Some(e.value)
    ensures (forall e :: e in table && e.key == key ==> now > e.expires) ==> Found(table, key, now) == None
  {
    var i := Position(table, key);
    assert i < |table| ==> table[i] in table;
  }

  // A write by the positions: the entry goes to the back, in place of one for its key, and what is
  // too much goes from the front.
  lemma SetMeans<V>(table: Table<V>, key: string, value: V, now: real, ttl: real, maxsize: nat, i: nat)
    requires Distinct(table)
    requires i <= |table| && (i < |table| ==> table[i].key == key)
    requires i == |table| ==> forall j :: 0 <= j < |table| ==> table[j].key != key
    ensures
      var others := if i < |table| then table[..i] + table[i + 1..] else table;
      var all := others + [Entry(key, value, now + ttl)];
      AfterSet(table, key, value, now, ttl, maxsize) == all[if |all| <= maxsize then 0 else |all| - maxsize..]
  {
    assert Position(table, key) == i;
    hide Distinct, Position;
    assert Without(table, key) == if i < |table| then table[..i] + table[i + 1..] else table;
    hide Without;
  }

  lemma PositionOfLast<V>(table: Table<V>)
    requires Distinct(table) && table != []
    ensures Position(table, table[|table| - 1].key) == |table| - 1
  {
  }

  // ----- Runs -------------------------------------------------------------------------------

  datatype Op<V> = Get(key: string) | Set(key: string, value: V) | Delete(key: string) | Clear

  datatype Call<V> = Call(op: Op<V>, now: real)

  datatype Bounds = Bounds(ttl: real, maxsize: nat)

  function After<V>(bounds: Bounds, table: Table<V>, call: Call<V>): Table<V> {
    match call.op
    case Get(key) => AfterGet(table, key, call.now)
    case Set(key, value) => AfterSet(table, key, value, call.now, bounds.ttl, bounds.maxsize)
    case Delete(key) => Without(table, key)
    case Clear => []
  }

  function TableBefore<V>(bounds: Bounds, calls: seq<Call<V>>, n: nat): Table<V>
    requires n <= |calls|
  {
    if n == 0 then [] else After(bounds, TableBefore(bounds, calls, n - 1), calls[n - 1])
  }

  ghost predicate Timely<V>(calls: seq<Call<V>>) {
    forall i, j :: 0 <= i <= j < |calls| ==> calls[i].now <= calls[j].now
  }

  // The plain map the cache stands for: the latest value set under a key since it was last
  // deleted or cleared, and when it was set. It is never bounded and forgets nothing by itself.
  function Latest<V>(calls: seq<Call<V>>, key: string, n: nat): Option<(V, real)>
    requires n <= |calls|
  {
    if n == 0 then None
    else
      match calls[n - 1].op
      case Set(k, value) => if k == key then Some((value, calls[n - 1].now)) else Latest(calls, key, n - 1)
      case Delete(k) => if k == key then None else Latest(calls, key, n - 1)
      case Clear => None
      case Get(_) => Latest(calls, key, n - 1)
  }

  // Call k touches its key: it sets it, or is a read that hits.
  predicate Touches<V>(bounds: Bounds, calls: seq<Call<V>>, k: nat)
    requires k < |calls|
  {
    match calls[k].op
    case Set(_, _) => true
    case Get(key) => Found(TableBefore(bounds, calls, k), key, calls[k].now).Some?
    case _ => false
  }

  // The other keys that have been touched since `key` last was.
  function Rivals<V>(bounds: Bounds, calls: seq<Call<V>>, key: string, n: nat): set<string>
    requires n <= |calls|
  {
    if n == 0 then {}
    else if !Touches(bounds, calls, n - 1) then Rivals(bounds, calls, key, n - 1)
    else if calls[n - 1].op.key == key then {}
    else Rivals(bounds, calls, key, n - 1) + {calls[n - 1].op.key}
  }

  // Every entry holds what the map holds, and expires ttl after it was set.
  ghost predicate Agrees<V>(bounds: Bounds, calls: seq<Call<V>>, n: nat)
    requires n <= |calls|
  {
    var table := TableBefore(bounds, calls, n);
    && Distinct(table) && |table| <= bounds.maxsize
    && forall e :: e in table ==> Backed(bounds, calls, n, e)
  }

  ghost predicate Backed<V>(bounds: Bounds, calls: seq<Call<V>>, n: nat, e: Entry<V>)
    requires n <= |calls|
  {
    var latest := Latest(calls, e.key, n);
    latest.Some? && latest.value.0 == e.value && e.expires == latest.value.1 + bounds.ttl
  }

  lemma AfterKeeps<V>(bounds: Bounds, table: Table<V>, call: Call<V>)
    requires Distinct(table) && |table| <= bounds.maxsize
    ensures Distinct(After(bounds, table, call)) && |After(bounds, table, call)| <= bounds.maxsize
    ensures forall e :: e in After(bounds, table, call) ==>
      (call.op.Set? && e == Entry(call.op.key, call.op.value, call.now + bounds.ttl)) ||
      (e in table && !call.op.Clear? && (call.op.Get? || e.key != call.op.key))
  {
    hide AfterGet, AfterSet;
    match call.op {
      case Get(key) => GetKeepsTable(table, key, call.now);
      case Set(key, value) => SetKeepsTable(table, key, value, call.now, bounds.ttl, bounds.maxsize);
      case Delete(key) => WithoutIsDistinct(table, key);
      case Clear =>
    }
  }

  lemma {:induction false} CacheAgreesWithMap<V>(bounds: Bounds, calls: seq<Call<V>>, n: nat)
    requires n <= |calls|
    ensures Agrees(bounds, calls, n)
    decreases n
  {
    if n == 0 {
    } else {
      CacheAgreesWithMap(bounds, calls, n - 1);
      var before, call := TableBefore(bounds, calls, n - 1), calls[n - 1];
      AfterKeeps(bounds, before, call);
      forall e | e in TableBefore(bounds, calls, n) ensures Backed(bounds, calls, n, e) {
        assert e in before ==> Backed(bounds, calls, n - 1, e);
      }
    }
  }

  // The cache refines the map: it never exceeds its bound, and a read that hits returns what
  // was last set under the key since it was deleted or cleared, at most ttl ago. Reads do not
  // extend an entry's life.
  lemma {:induction false} HitsAreLatest<V>(bounds: Bounds, calls: seq<Call<V>>, k: nat)
    requires k < |calls| && calls[k].op.Get?
    ensures |TableBefore(bounds, calls, k)| <= bounds.maxsize
    ensures
      var found := Found(TableBefore(bounds, calls, k), calls[k].op.key, calls[k].now);
      var latest := Latest(calls, calls[k].op.key, k);
      found.Some? ==> latest.Some? && found.value == latest.value.0 && calls[k].now <= latest.value.1 + bounds.ttl
  {
    CacheAgreesWithMap(bounds, calls, k);
    var table, key := TableBefore(bounds, calls, k), calls[k].op.key;
    var i := Position(table, key);
    if i < |table| {
      assert table[i] in table;
      assert Backed(bounds, calls, k, table[i]);
    }
  }

  // ----- Which reads are sure to hit -----------------------------------------------------------

  // The key is in the table, and only keys of `rivals` are behind it.
  ghost predicate Ahead<V>(table: Table<V>, key: string, rivals: set<string>) {
    exists i :: AheadAt(table, key, rivals, i)
  }

  ghost predicate AheadAt<V>(table: Table<V>, key: string, rivals: set<string>, i: int) {
    0 <= i < |table| && table[i].key == key && forall j :: i < j < |table| ==> table[j].key in rivals
  }

  lemma WithoutKeepsAhead<V>(table: Table<V>, key: string, rivals: set<string>, other: string)
    requires Ahead(table, key, rivals) && other != key
    ensures Ahead(Without(table, other), key, rivals)
  {
    var i :| AheadAt(table, key, rivals, i);
    var p := Position(table, other);
    assert AheadAt(Without(table, other), key, rivals, if i < p then i else i - 1);
  }

  lemma AppendKeepsAhead<V>(table: Table<V>, key: string, rivals: set<string>, entry: Entry<V>)
    requires Ahead(table, key, rivals)
    ensures Ahead(table + [entry], key, rivals + {entry.key})
  {
    var i :| AheadAt(table, key, rivals, i);
    assert AheadAt(table + [entry], key, rivals + {entry.key}, i);
  }

  lemma {:induction false} DistinctKeysFit<V>(table: Table<V>, rivals: set<string>)
    requires Distinct(table) && forall j :: 0 <= j < |table| ==> table[j].key in rivals
    ensures |table| <= |rivals|
    decreases |table|
  {
    if table == [] {
    } else {
      var last := table[|table| - 1].key;
      DistinctKeysFit(table[..|table| - 1], rivals - {last});
    }
  }

  lemma NewestKeepsAhead<V>(table: Table<V>, key: string, rivals: set<string>, maxsize: nat)
    requires Distinct(table) && Ahead(table, key, rivals) && |rivals| < maxsize
    ensures Ahead(Newest(table, maxsize), key, rivals)
  {
    var i :| AheadAt(table, key, rivals, i);
    DistinctKeysFit(table[i + 1..], rivals);
    if |table| > maxsize {
      assert AheadAt(Newest(table, maxsize), key, rivals, i - (|table| - maxsize));
    }
  }

  lemma AheadIsFound<V>(table: Table<V>, key: string, rivals: set<string>)
    requires Distinct(table) && Ahead(table, key, rivals)
    ensures Position(table, key) < |table| && AheadAt(table, key, rivals, Position(table, key))
  {
    var i :| AheadAt(table, key, rivals, i);
    assert Position(table, key) == i;
  }

  // A call on another key adds at most that key to the rivals.
  lemma RivalGet<V>(table: Table<V>, key: string, rivals: set<string>, other: string, now: real)
    requires Distinct(table) && Ahead(table, key, rivals) && other != key
    ensures Ahead(AfterGet(table, other, now), key,
                  if Found(table, other, now).Some? then rivals + {other} else rivals)
  {
    WithoutKeepsAhead(table, key, rivals, other);
    var i := Position(table, other);
    if i < |table| {
      AppendKeepsAhead(Without(table, other), key, rivals, table[i]);
    }
  }

  lemma RivalSet<V>(table: Table<V>, key: string, rivals: set<string>, entry: Entry<V>, maxsize: nat)
    requires Distinct(table) && Ahead(table, key, rivals) && entry.key != key
    requires |rivals + {entry.key}| < maxsize
    ensures Ahead(Newest(Without(table, entry.key) + [entry], maxsize), key, rivals + {entry.key})
  {
    hide Distinct, Ahead, Newest, Position;
    WithoutIsDistinct(table, entry.key);
    AppendIsDistinct(Without(table, entry.key), entry);
    hide Without;
    WithoutKeepsAhead(table, key, rivals, entry.key);
    AppendKeepsAhead(Without(table, entry.key), key, rivals, entry);
    NewestKeepsAhead(Without(table, entry.key) + [entry], key, rivals + {entry.key}, maxsize);
  }

  lemma RivalCall<V>(bounds: Bounds, calls: seq<Call<V>>, key: string, n: nat)
    requires 0 < n <= |calls| && !calls[n - 1].op.Clear? && calls[n - 1].op.key != key
    requires |Rivals(bounds, calls, key, n)| < bounds.maxsize && Distinct(TableBefore(bounds, calls, n - 1))
    requires Ahead(TableBefore(bounds, calls, n - 1), key, Rivals(bounds, calls, key, n - 1))
    ensures Ahead(TableBefore(bounds, calls, n), key, Rivals(bounds, calls, key, n))
  {
    hide AfterGet, Without, Newest, Ahead, Found, Position, Distinct;
    var table, call, rivals := TableBefore(bounds, calls, n - 1), calls[n - 1], Rivals(bounds, calls, key, n - 1);
    match call.op {
      case Get(other) => RivalGet(table, key, rivals, other, call.now);
      case Set(other, value) =>
        RivalSet(table, key, rivals, Entry(other, value, call.now + bounds.ttl), bounds.maxsize);
      case Delete(other) => WithoutKeepsAhead(table, key, rivals, other);
    }
  }

  // A touch puts the key last.
  lemma TouchPutsLast<V>(bounds: Bounds, calls: seq<Call<V>>, n: nat)
    requires 0 < n <= |calls| && Touches(bounds, calls, n - 1) && bounds.maxsize > 0
    ensures Ahead(TableBefore(bounds, calls, n), calls[n - 1].op.key, {})
  {
    var table := TableBefore(bounds, calls, n);
    assert AheadAt(table, calls[n - 1].op.key, {}, |table| - 1);
  }

  // A read of the key that misses finds it expired, or behind no one.
  lemma {:induction false} MissIsLate<V>(bounds: Bounds, calls: seq<Call<V>>, key: string, n: nat, rivals: set<string>)
    requires n < |calls| && calls[n].op == Get(key) && Latest(calls, key, n).Some?
    requires calls[n].now <= Latest(calls, key, n).value.1 + bounds.ttl
    requires Ahead(TableBefore(bounds, calls, n), key, rivals)
    ensures Touches(bounds, calls, n)
  {
    var table := TableBefore(bounds, calls, n);
    CacheAgreesWithMap(bounds, calls, n);
    AheadIsFound(table, key, rivals);
    assert table[Position(table, key)] in table;
    assert Backed(bounds, calls, n, table[Position(table, key)]);
  }

  lemma {:induction false} TableIsDistinct<V>(bounds: Bounds, calls: seq<Call<V>>, n: nat)
    requires n <= |calls|
    ensures Distinct(TableBefore(bounds, calls, n))
  {
    CacheAgreesWithMap(bounds, calls, n);
  }

  lemma {:induction false} LiveKeyStaysAhead<V>(bounds: Bounds, calls: seq<Call<V>>, key: string, n: nat)
    requires Timely(calls) && n <= |calls| && Latest(calls, key, n).Some?
    requires calls[n - 1].now <= Latest(calls, key, n).value.1 + bounds.ttl
    requires |Rivals(bounds, calls, key, n)| < bounds.maxsize
    ensures Ahead(TableBefore(bounds, calls, n), key, Rivals(bounds, calls, key, n))
    decreases n
  {
    hide Ahead, Distinct, AfterGet, AfterSet, Without, After;
    var call := calls[n - 1];
    assert !call.op.Clear?;
    if call.op.key == key && Touches(bounds, calls, n - 1) {
      TouchPutsLast(bounds, calls, n);
    } else {
      assert Latest(calls, key, n - 1) == Latest(calls, key, n);
      assert Rivals(bounds, calls, key, n - 1) <= Rivals(bounds, calls, key, n);
      CardinalityIsMonotone(Rivals(bounds, calls, key, n - 1), Rivals(bounds, calls, key, n));
      LiveKeyStaysAhead(bounds, calls, key, n - 1);
      if call.op.key == key {
        MissIsLate(bounds, calls, key, n - 1, Rivals(bounds, calls, key, n - 1));
        assert false;
      } else {
        TableIsDistinct(bounds, calls, n - 1);
        RivalCall(bounds, calls, key, n);
      }
    }
  }

  lemma CardinalityIsMonotone<T>(a: set<T>, b: set<T>)
    requires a <= b
    ensures |a| <= |b|
  {
    assert b == a + (b - a);
  }

  // A key that the map holds and that has not outlived its ttl is a hit for sure while fewer
  // than `maxsize` other keys have been touched since it was.
  lemma LiveKeyIsHit<V>(bounds: Bounds, calls: seq<Call<V>>, key: string, n: nat, now: real)
    requires Timely(calls) && n <= |calls| && Latest(calls, key, n).Some?
    requires calls[n - 1].now <= now <= Latest(calls, key, n).value.1 + bounds.ttl
    requires |Rivals(bounds, calls, key, n)| < bounds.maxsize
    ensures Found(TableBefore(bounds, calls, n), key, now) == Some(Latest(calls, key, n).value.0)
  {
    LiveKeyStaysAhead(bounds, calls, key, n);
    CacheAgreesWithMap(bounds, calls, n);
    AheadIsFound(TableBefore(bounds, calls, n), key, Rivals(bounds, calls, key, n));
    var table := TableBefore(bounds, calls, n);
    assert Backed(bounds, calls, n, table[Position(table, key)]);
  }
}
