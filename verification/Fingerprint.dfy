/**
 The payload part of a notification request fingerprint: the payload with its keys sorted at every
 depth. The order of keys is a parameter: the theorems hold for any total order, in particular for the
 one in which an object with sorted keys enumerates them.
 */
module Fingerprint {
  import M = Mentions

  type Text = M.Text

  // ---- Sorting ------------------------------------------------------------------------------------

  ghost predicate StrictOrder<T(!new)>(before: (T, T) -> bool) {
    && (forall x :: !before(x, x))
    && (forall x, y, z :: before(x, y) && before(y, z) ==> before(x, z))
  }

  ghost predicate StrictTotalOrder<T(!new)>(before: (T, T) -> bool) {
    StrictOrder(before) && forall x, y :: before(x, y) || x == y || before(y, x)
  }

  ghost predicate Sorted<T>(before: (T, T) -> bool, xs: seq<T>) {
    forall i, j :: 0 <= i < j < |xs| ==> before(xs[i], xs[j])
  }

  ghost predicate Comparable<T>(before: (T, T) -> bool, xs: seq<T>) {
    forall i, j :: 0 <= i < j < |xs| ==> before(xs[i], xs[j]) || before(xs[j], xs[i])
  }

  function Insert<T(!new)>(before: (T, T) -> bool, x: T, xs: seq<T>): (r: seq<T>)
    ensures |r| == |xs| + 1
    ensures forall y :: y in r <==> y == x || y in xs
  {
    if xs == [] then [x]
    else if before(xs[0], x) then [xs[0]] + Insert(before, x, xs[1..])
    else [x] + xs
  }

  /** A stable sort: of two elements that are not ordered, the one that came first stays first. */
  function Sort<T(!new)>(before: (T, T) -> bool, xs: seq<T>): (r: seq<T>)
    ensures |r| == |xs|
    ensures forall y :: y in r <==> y in xs
  {
    if xs == [] then [] else Insert(before, xs[0], Sort(before, xs[1..]))
  }

  lemma {:induction false} InsertPermutes<T(!new)>(before: (T, T) -> bool, x: T, xs: seq<T>)
    ensures multiset(Insert(before, x, xs)) == multiset(xs) + multiset{x}
  {
    if xs != [] {
      assert xs == [xs[0]] + xs[1..];
      if before(xs[0], x) {
        InsertPermutes(before, x, xs[1..]);
      }
    }
  }

  lemma {:induction false} SortPermutes<T(!new)>(before: (T, T) -> bool, xs: seq<T>)
    ensures multiset(Sort(before, xs)) == multiset(xs)
  {
    if xs != [] {
      SortPermutes(before, xs[1..]);
      InsertPermutes(before, xs[0], Sort(before, xs[1..]));
      assert xs == [xs[0]] + xs[1..];
    }
  }

  lemma {:induction false} InsertSorted<T(!new)>(before: (T, T) -> bool, x: T, xs: seq<T>)
    requires StrictOrder(before) && Sorted(before, xs)
    requires forall y :: y in xs ==> before(x, y) || before(y, x)
    ensures Sorted(before, Insert(before, x, xs))
  {
    if xs != [] {
      if !before(xs[0], x) {
        assert xs[0] in xs;
        forall j | 0 < j < |xs| + 1 ensures before(x, ([x] + xs)[j]) {
          assert j > 1 ==> before(xs[0], xs[j - 1]);
        }
      } else {
        InsertSorted(before, x, xs[1..]);
        var rest := Insert(before, x, xs[1..]);
        forall j | 0 <= j < |rest| ensures before(xs[0], rest[j]) {
          assert rest[j] in rest;
          if rest[j] != x {
            var k :| 0 <= k < |xs[1..]| && xs[1..][k] == rest[j];
            assert before(xs[0], xs[k + 1]);
          } else {
            assert xs[0] in xs;
          }
        }
      }
    }
  }

  lemma {:induction false} SortSorts<T(!new)>(before: (T, T) -> bool, xs: seq<T>)
    requires StrictOrder(before) && Comparable(before, xs)
    ensures Sorted(before, Sort(before, xs))
  {
    if xs != [] {
      SortSorts(before, xs[1..]);
      forall y | y in xs[1..] ensures before(xs[0], y) || before(y, xs[0]) {
        var k :| 0 <= k < |xs[1..]| && xs[1..][k] == y;
        assert xs[k + 1] == y;
      }
      InsertSorted(before, xs[0], Sort(before, xs[1..]));
    }
  }

  /** A sorted sequence is known by what is in it. */
  lemma {:induction false} SortedUnique<T(!new)>(before: (T, T) -> bool, xs: seq<T>, ys: seq<T>)
    requires StrictOrder(before) && Sorted(before, xs) && Sorted(before, ys)
    requires forall x :: x in xs <==> x in ys
    ensures xs == ys
  {
    assert xs != [] ==> xs[0] in xs;
    assert ys != [] ==> ys[0] in ys;
    if xs != [] {
      FirstIsLeast(before, xs, ys[0]);
      FirstIsLeast(before, ys, xs[0]);
      SortedTail(before, xs);
      SortedTail(before, ys);
      SortedUnique(before, xs[1..], ys[1..]);
    }
  }

  lemma FirstIsLeast<T(!new)>(before: (T, T) -> bool, xs: seq<T>, y: T)
    requires Sorted(before, xs) && y in xs
    ensures xs[0] == y || before(xs[0], y)
  {
    var k :| 0 <= k < |xs| && xs[k] == y;
  }

  lemma SortedTail<T(!new)>(before: (T, T) -> bool, xs: seq<T>)
    requires StrictOrder(before) && Sorted(before, xs) && xs != []
    ensures Sorted(before, xs[1..])
    ensures forall x :: x in xs[1..] <==> x in xs && x != xs[0]
  {
    forall x ensures x in xs[1..] <==> x in xs && x != xs[0] {
      if x in xs && x != xs[0] {
        var k :| 0 <= k < |xs| && xs[k] == x;
        assert xs[1..][k - 1] == x;
      }
      if x in xs[1..] {
        var k :| 0 <= k < |xs[1..]| && xs[1..][k] == x;
        assert xs[k + 1] == x && before(xs[0], x);
      }
    }
  }

  // ---- Canonical payloads ------------------------------------------------------------------------------

  datatype Json =
    | Null
    | Bool(b: bool)
    | Num(n: int)
    | Str(s: Text)
    | Arr(items: seq<Json>)
    | Obj(members: seq<Member>)

  datatype Member = Member(key: Text, value: Json)

  /** "__proto__": assigning to this property sets an object's prototype and makes no member. */
  const PROTO: Text := [0x5F, 0x5F, 0x70, 0x72, 0x6F, 0x74, 0x6F, 0x5F, 0x5F]

  function Keys(ms: seq<Member>): set<Text> {
    set m | m in ms :: m.key
  }

  predicate DistinctKeys(ms: seq<Member>) {
    forall i, j :: 0 <= i < j < |ms| ==> ms[i].key != ms[j].key
  }

  /** No object has a key twice. */
  predicate WellFormed(j: Json) {
    match j
    case Arr(items) => forall i :: 0 <= i < |items| ==> WellFormed(items[i])
    case Obj(ms) => DistinctKeys(ms) && forall i :: 0 <= i < |ms| ==> WellFormed(ms[i].value)
    case _ => true
  }

  /** No object, at any depth, has the key "__proto__". */
  predicate NoProto(j: Json) {
    match j
    case Arr(items) => forall i :: 0 <= i < |items| ==> NoProto(items[i])
    case Obj(ms) => forall i :: 0 <= i < |ms| ==> ms[i].key != PROTO && NoProto(ms[i].value)
    case _ => true
  }

  function Kept(ms: seq<Member>): (r: seq<Member>)
    ensures forall m :: m in r <==> m in ms && m.key != PROTO
  {
    if ms == [] then [] else (if ms[0].key == PROTO then [] else [ms[0]]) + Kept(ms[1..])
  }

  function KeyOrder(less: (Text, Text) -> bool): (Member, Member) -> bool {
    (a: Member, b: Member) => less(a.key, b.key)
  }

  function SortKeysDeep(less: (Text, Text) -> bool, j: Json): Json {
    match j
    case Arr(items) => Arr(seq(|items|, i requires 0 <= i < |items| => SortKeysDeep(less, items[i])))
    case Obj(ms) =>
      var mapped := seq(|ms|, i requires 0 <= i < |ms| => Member(ms[i].key, SortKeysDeep(less, ms[i].value)));
      Obj(Sort(KeyOrder(less), Kept(mapped)))
    case _ => j
  }

  function Mapped(less: (Text, Text) -> bool, ms: seq<Member>): seq<Member> {
    seq(|ms|, i requires 0 <= i < |ms| => Member(ms[i].key, SortKeysDeep(less, ms[i].value)))
  }

  /** Equal up to the order of keys, and up to members with an ignored key, at every depth. */
  predicate Same(a: Json, b: Json, ignored: set<Text>)
    decreases a
  {
    match (a, b)
    case (Arr(xs), Arr(ys)) => |xs| == |ys| && forall i :: 0 <= i < |xs| ==> Same(xs[i], ys[i], ignored)
    case (Obj(xs), Obj(ys)) =>
      && Keys(xs) - ignored == Keys(ys) - ignored
      && forall i, j :: 0 <= i < |xs| && 0 <= j < |ys| && xs[i].key == ys[j].key && xs[i].key !in ignored ==>
           Same(xs[i].value, ys[j].value, ignored)
    case _ => a == b
  }

  lemma {:induction false} KeptDistinct(ms: seq<Member>)
    requires DistinctKeys(ms)
    ensures DistinctKeys(Kept(ms))
  {
    if ms != [] {
      KeptDistinct(ms[1..]);
      var rest := Kept(ms[1..]);
      forall k | 0 <= k < |rest| ensures rest[k].key != ms[0].key {
        assert rest[k] in ms[1..];
        var i :| 0 <= i < |ms[1..]| && ms[1..][i] == rest[k];
        assert ms[i + 1] == rest[k];
      }
    }
  }

  lemma KeyOrderIsStrict(less: (Text, Text) -> bool)
    requires StrictTotalOrder(less)
    ensures StrictOrder(KeyOrder(less))
  {
    var before := KeyOrder(less);
    forall x ensures !before(x, x) {
      assert !less(x.key, x.key);
    }
    forall x, y, z | before(x, y) && before(y, z) ensures before(x, z) {
      assert less(x.key, y.key) && less(y.key, z.key);
    }
  }

  /** The members of a canonical object: those kept, with canonical values, by ascending key. */
  lemma CanonicalMembers(less: (Text, Text) -> bool, ms: seq<Member>)
    requires StrictTotalOrder(less) && DistinctKeys(ms)
    ensures SortKeysDeep(less, Obj(ms)) == Obj(Sort(KeyOrder(less), Kept(Mapped(less, ms))))
    ensures Sorted(KeyOrder(less), Sort(KeyOrder(less), Kept(Mapped(less, ms))))
    ensures forall m :: m in Sort(KeyOrder(less), Kept(Mapped(less, ms))) <==> m in Mapped(less, ms) && m.key != PROTO
  {
    var mapped := Mapped(less, ms);
    KeyOrderIsStrict(less);
    assert DistinctKeys(mapped);
    KeptDistinct(mapped);
    forall i, j | 0 <= i < j < |Kept(mapped)|
      ensures KeyOrder(less)(Kept(mapped)[i], Kept(mapped)[j]) || KeyOrder(less)(Kept(mapped)[j], Kept(mapped)[i])
    {
      assert Kept(mapped)[i].key != Kept(mapped)[j].key;
    }
    SortSorts(KeyOrder(less), Kept(mapped));
  }

  // ---- The canonical form decides equality up to key order --------------------------------------------------

  /** Sorting keys at every depth gives a canonical value: no "__proto__", well formed, and a fixed point. */
  lemma {:induction false} Idempotent(less: (Text, Text) -> bool, a: Json)
    requires StrictTotalOrder(less) && WellFormed(a)
    ensures var c := SortKeysDeep(less, a);
      WellFormed(c) && NoProto(c) && SortKeysDeep(less, c) == c
    decreases a
  {
    match a
    case Arr(items) =>
      forall i | 0 <= i < |items|
        ensures var c := SortKeysDeep(less, items[i]); WellFormed(c) && NoProto(c) && SortKeysDeep(less, c) == c
      {
        Idempotent(less, items[i]);
      }
    case Obj(ms) =>
      forall i | 0 <= i < |ms|
        ensures var c := SortKeysDeep(less, ms[i].value); WellFormed(c) && NoProto(c) && SortKeysDeep(less, c) == c
      {
        Idempotent(less, ms[i].value);
      }
      CanonicalMembers(less, ms);
      CanonicalObject(less, Sort(KeyOrder(less), Kept(Mapped(less, ms))));
    case _ =>
  }

  /** Members in ascending key order, none of them "__proto__", with canonical values, are a fixed point. */
  lemma CanonicalObject(less: (Text, Text) -> bool, ms: seq<Member>)
    requires StrictTotalOrder(less) && Sorted(KeyOrder(less), ms)
    requires forall m :: m in ms ==>
      m.key != PROTO && WellFormed(m.value) && NoProto(m.value) && SortKeysDeep(less, m.value) == m.value
    ensures WellFormed(Obj(ms)) && NoProto(Obj(ms)) && SortKeysDeep(less, Obj(ms)) == Obj(ms)
  {
    forall i, j | 0 <= i < j < |ms| ensures ms[i].key != ms[j].key {
      assert KeyOrder(less)(ms[i], ms[j]);
    }
    forall i | 0 <= i < |ms| ensures Mapped(less, ms)[i] == ms[i] {
      assert ms[i] in ms;
    }
    assert Mapped(less, ms) == ms;
    CanonicalMembers(less, ms);
    KeyOrderIsStrict(less);
    SortedUnique(KeyOrder(less), Sort(KeyOrder(less), Kept(ms)), ms);
  }

  /** Two values have the same canonical form exactly if they are equal up to key order, "__proto__" members aside. */
  lemma {:induction false} SameCanonicalForm(less: (Text, Text) -> bool, a: Json, b: Json)
    requires StrictTotalOrder(less) && WellFormed(a) && WellFormed(b)
    ensures SortKeysDeep(less, a) == SortKeysDeep(less, b) <==> Same(a, b, {PROTO})
    decreases a
  {
    match (a, b)
    case (Arr(xs), Arr(ys)) =>
      forall i | 0 <= i < |xs| && i < |ys|
        ensures SortKeysDeep(less, xs[i]) == SortKeysDeep(less, ys[i]) <==> Same(xs[i], ys[i], {PROTO})
      {
        SameCanonicalForm(less, xs[i], ys[i]);
      }
      SameCanonicalItems(less, xs, ys);
    case (Obj(xs), Obj(ys)) =>
      forall i, j | 0 <= i < |xs| && 0 <= j < |ys|
        ensures SortKeysDeep(less, xs[i].value) == SortKeysDeep(less, ys[j].value) <==>
          Same(xs[i].value, ys[j].value, {PROTO})
      {
        SameCanonicalForm(less, xs[i].value, ys[j].value);
      }
      SameCanonicalMembers(less, xs, ys);
    case _ =>
  }

  lemma SameCanonicalItems(less: (Text, Text) -> bool, xs: seq<Json>, ys: seq<Json>)
    requires forall i :: 0 <= i < |xs| && i < |ys| ==>
      (SortKeysDeep(less, xs[i]) == SortKeysDeep(less, ys[i]) <==> Same(xs[i], ys[i], {PROTO}))
    ensures SortKeysDeep(less, Arr(xs)) == SortKeysDeep(less, Arr(ys)) <==> Same(Arr(xs), Arr(ys), {PROTO})
  {
    var cs, ds := SortKeysDeep(less, Arr(xs)).items, SortKeysDeep(less, Arr(ys)).items;
    assert |cs| == |xs| && |ds| == |ys|;
    assert forall i :: 0 <= i < |xs| ==> cs[i] == SortKeysDeep(less, xs[i]);
    assert forall i :: 0 <= i < |ys| ==> ds[i] == SortKeysDeep(less, ys[i]);
    if Same(Arr(xs), Arr(ys), {PROTO}) {
      assert cs == ds;
    }
  }

  /** The same keys and under each the same canonical value, "__proto__" aside. */
  ghost predicate Alike(less: (Text, Text) -> bool, xs: seq<Member>, ys: seq<Member>) {
    && Keys(xs) - {PROTO} == Keys(ys) - {PROTO}
    && forall i, j :: 0 <= i < |xs| && 0 <= j < |ys| && xs[i].key == ys[j].key && xs[i].key != PROTO ==>
         SortKeysDeep(less, xs[i].value) == SortKeysDeep(less, ys[j].value)
  }

  lemma AlikeContained(less: (Text, Text) -> bool, xs: seq<Member>, ys: seq<Member>, m: Member)
    requires Alike(less, xs, ys)
    requires m in Mapped(less, xs) && m.key != PROTO
    ensures m in Mapped(less, ys)
  {
    var i :| 0 <= i < |xs| && Mapped(less, xs)[i] == m;
    assert xs[i] in xs && m.key in Keys(xs) - {PROTO};
    assert m.key in Keys(ys);
    var y :| y in ys && y.key == m.key;
    var j :| 0 <= j < |ys| && ys[j] == y;
    assert Mapped(less, ys)[j] == m;
  }

  ghost predicate Contained(less: (Text, Text) -> bool, xs: seq<Member>, ys: seq<Member>) {
    forall m :: m in Mapped(less, xs) && m.key != PROTO ==> m in Mapped(less, ys)
  }

  lemma ContainedAlike(less: (Text, Text) -> bool, xs: seq<Member>, ys: seq<Member>)
    requires DistinctKeys(ys) && Contained(less, xs, ys) && Contained(less, ys, xs)
    ensures Alike(less, xs, ys)
  {
    KeysContained(less, xs, ys);
    KeysContained(less, ys, xs);
    forall i, j | 0 <= i < |xs| && 0 <= j < |ys| && xs[i].key == ys[j].key && xs[i].key != PROTO
      ensures SortKeysDeep(less, xs[i].value) == SortKeysDeep(less, ys[j].value)
    {
      ContainedValue(less, xs, ys, i, j);
    }
  }

  lemma ContainedValue(less: (Text, Text) -> bool, xs: seq<Member>, ys: seq<Member>, i: nat, j: nat)
    requires DistinctKeys(ys) && Contained(less, xs, ys)
    requires i < |xs| && j < |ys| && xs[i].key == ys[j].key && xs[i].key != PROTO
    ensures SortKeysDeep(less, xs[i].value) == SortKeysDeep(less, ys[j].value)
  {
    var m := Mapped(less, xs)[i];
    assert m in Mapped(less, xs) && m.key != PROTO;
    assert m in Mapped(less, ys);
    var k := IndexOf(less, ys, m);
    SameKeySameIndex(ys, k, j);
  }

  lemma IndexOf(less: (Text, Text) -> bool, ms: seq<Member>, m: Member) returns (k: nat)
    requires m in Mapped(less, ms)
    ensures k < |ms| && ms[k].key == m.key && SortKeysDeep(less, ms[k].value) == m.value
  {
    k :| k < |ms| && Mapped(less, ms)[k] == m;
  }

  lemma SameKeySameIndex(ms: seq<Member>, j: nat, k: nat)
    requires DistinctKeys(ms) && j < |ms| && k < |ms| && ms[j].key == ms[k].key
    ensures j == k
  {
  }

  lemma KeysContained(less: (Text, Text) -> bool, xs: seq<Member>, ys: seq<Member>)
    requires Contained(less, xs, ys)
    ensures Keys(xs) - {PROTO} <= Keys(ys) - {PROTO}
  {
    forall key | key in Keys(xs) - {PROTO} ensures key in Keys(ys) {
      var x :| x in xs && x.key == key;
      var i :| 0 <= i < |xs| && xs[i] == x;
      var m := Mapped(less, xs)[i];
      assert m in Mapped(less, xs);
      assert m in Mapped(less, ys);
      var j :| 0 <= j < |ys| && Mapped(less, ys)[j] == m;
      assert ys[j] in ys && ys[j].key == key;
    }
  }

  lemma SameCanonicalMembers(less: (Text, Text) -> bool, xs: seq<Member>, ys: seq<Member>)
    requires StrictTotalOrder(less) && DistinctKeys(xs) && DistinctKeys(ys)
    requires forall i, j :: 0 <= i < |xs| && 0 <= j < |ys| ==>
      (SortKeysDeep(less, xs[i].value) == SortKeysDeep(less, ys[j].value) <==> Same(xs[i].value, ys[j].value, {PROTO}))
    ensures SortKeysDeep(less, Obj(xs)) == SortKeysDeep(less, Obj(ys)) <==> Same(Obj(xs), Obj(ys), {PROTO})
  {
    var cs, ds := Sort(KeyOrder(less), Kept(Mapped(less, xs))), Sort(KeyOrder(less), Kept(Mapped(less, ys)));
    CanonicalMembers(less, xs);
    CanonicalMembers(less, ys);
    KeyOrderIsStrict(less);
    assert Same(Obj(xs), Obj(ys), {PROTO}) <==> Alike(less, xs, ys);
    if Alike(less, xs, ys) {
      forall m ensures m in cs <==> m in ds {
        if m in cs {
          AlikeContained(less, xs, ys, m);
        }
        if m in ds {
          AlikeContained(less, ys, xs, m);
        }
      }
      SortedUnique(KeyOrder(less), cs, ds);
    }
    if cs == ds {
      assert Contained(less, xs, ys) && Contained(less, ys, xs);
      ContainedAlike(less, xs, ys);
    }
  }

  /**
   A value is equal up to key order to its canonical form, so that the form speaks for the whole value,
   exactly if no object in it has the key "__proto__"; such members are lost.
   */
  lemma {:induction false} CanonicalFormIsFaithful(less: (Text, Text) -> bool, a: Json)
    requires StrictTotalOrder(less) && WellFormed(a)
    ensures Same(a, SortKeysDeep(less, a), {}) <==> NoProto(a)
  {
    Idempotent(less, a);
    var c := SortKeysDeep(less, a);
    SameCanonicalForm(less, a, c);
    if NoProto(a) {
      NothingIgnored(a, c);
    }
    if Same(a, c, {}) {
      SameNoProto(a, c);
    }
  }

  /** Without "__proto__" the fingerprint input decides equality up to key order. */
  lemma CanonicalFormDecides(less: (Text, Text) -> bool, a: Json, b: Json)
    requires StrictTotalOrder(less) && WellFormed(a) && WellFormed(b) && NoProto(a) && NoProto(b)
    ensures SortKeysDeep(less, a) == SortKeysDeep(less, b) <==> Same(a, b, {})
  {
    SameCanonicalForm(less, a, b);
    NothingIgnored(a, b);
  }

  lemma {:induction false} NothingIgnored(a: Json, b: Json)
    requires NoProto(a) && NoProto(b)
    ensures Same(a, b, {PROTO}) <==> Same(a, b, {})
    decreases a
  {
    match (a, b)
    case (Arr(xs), Arr(ys)) =>
      forall i | 0 <= i < |xs| && i < |ys| ensures Same(xs[i], ys[i], {PROTO}) <==> Same(xs[i], ys[i], {}) {
        NothingIgnored(xs[i], ys[i]);
      }
    case (Obj(xs), Obj(ys)) =>
      forall i, j | 0 <= i < |xs| && 0 <= j < |ys|
        ensures Same(xs[i].value, ys[j].value, {PROTO}) <==> Same(xs[i].value, ys[j].value, {})
      {
        NothingIgnored(xs[i].value, ys[j].value);
      }
      assert PROTO !in Keys(xs) && PROTO !in Keys(ys);
      assert Keys(xs) - {PROTO} == Keys(xs) - {} && Keys(ys) - {PROTO} == Keys(ys) - {};
    case _ =>
  }

  lemma {:induction false} SameNoProto(a: Json, b: Json)
    requires Same(a, b, {}) && NoProto(b)
    ensures NoProto(a)
    decreases a
  {
    match (a, b)
    case (Arr(xs), Arr(ys)) =>
      forall i | 0 <= i < |xs| ensures NoProto(xs[i]) {
        SameNoProto(xs[i], ys[i]);
      }
    case (Obj(xs), Obj(ys)) =>
      forall i | 0 <= i < |xs| ensures xs[i].key != PROTO && NoProto(xs[i].value) {
        assert xs[i] in xs && xs[i].key in Keys(xs) - {};
        assert xs[i].key in Keys(ys);
        var y :| y in ys && y.key == xs[i].key;
        var j :| 0 <= j < |ys| && ys[j] == y;
        SameNoProto(xs[i].value, ys[j].value);
      }
    case _ =>
  }

  /** Two payloads that differ in a "__proto__" member, of which nothing is left, and have one canonical form. */
  lemma ProtoIsLost(less: (Text, Text) -> bool, key: Text)
    requires StrictTotalOrder(less) && key != PROTO
    ensures var a := Obj([Member(key, Num(1))]);
      var b := Obj([Member(key, Num(1)), Member(PROTO, Obj([Member(key, Num(2))]))]);
      && WellFormed(a) && WellFormed(b) && !Same(a, b, {})
      && SortKeysDeep(less, a) == SortKeysDeep(less, b) == a
  {
    var a := Obj([Member(key, Num(1))]);
    var b := Obj([Member(key, Num(1)), Member(PROTO, Obj([Member(key, Num(2))]))]);
    assert PROTO in Keys(b.members) by {
      assert b.members[1] in b.members;
    }
    assert Keys(a.members) == {key} by {
      assert a.members[0] in a.members;
    }
    assert WellFormed(b.members[1].value);
    assert PROTO in Keys(b.members) - {} && PROTO !in Keys(a.members) - {};
    assert Keys(a.members) - {PROTO} == Keys(b.members) - {PROTO} by {
      assert b.members[0] in b.members && b.members[1] in b.members;
    }
    SameCanonicalForm(less, a, b);
    CanonicalObject(less, a.members);
  }
}
