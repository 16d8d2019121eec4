/** Python's comparison of sort-key tuples and its stable list.sort(key=...).
    A key is a tuple of booleans, integers and strings compared
    lexicographically; list.sort computes every element's key and then
    reorders the elements stably. The stable order is unique (see
    StableSortUnique), so the insertion sort below yields exactly the list
    that Python's own sort produces. */
module Ordering {

  /** Python's `a <= b` on strings: lexicographic on code points. */
  predicate StrLe(a: string, b: string)
    decreases |a|
  {
    a == [] || (b != [] && (a[0] < b[0] || (a[0] == b[0] && StrLe(a[1..], b[1..]))))
  }

  lemma {:induction false} StrLeRefl(a: string)
    ensures StrLe(a, a)
    decreases |a|
  {
    if a != [] { StrLeRefl(a[1..]); }
  }

  lemma {:induction false} StrLeTotal(a: string, b: string)
    ensures StrLe(a, b) || StrLe(b, a)
    decreases |a|
  {
    if a != [] && b != [] && a[0] == b[0] { StrLeTotal(a[1..], b[1..]); }
  }

  lemma {:induction false} StrLeTrans(a: string, b: string, c: string)
    requires StrLe(a, b) && StrLe(b, c)
    ensures StrLe(a, c)
    decreases |a|
  {
    if a != [] && a[0] == b[0] && b[0] == c[0] { StrLeTrans(a[1..], b[1..], c[1..]); }
  }

  lemma {:induction false} StrLeAntisym(a: string, b: string)
    requires StrLe(a, b) && StrLe(b, a)
    ensures a == b
    decreases |a|
  {
    if a != [] {
      StrLeAntisym(a[1..], b[1..]);
      assert a == [a[0]] + a[1..] && b == [b[0]] + b[1..];
    }
  }

  /** One element of a sort-key tuple. */
  datatype Component = B(b: bool) | I(i: int) | S(s: string)

  /** The sort keys of one sort mode always hold the same kinds at the same
      positions; kinds are ranked only to make the order total. */
  function Rank(c: Component): int {
    match c
    case B(_) => 0
    case I(_) => 1
    case S(_) => 2
  }

  /** Python's `x <= y` on one tuple element (False < True). */
  predicate CompLe(x: Component, y: Component) {
    if x.B? && y.B? then !x.b || y.b
    else if x.I? && y.I? then x.i <= y.i
    else if x.S? && y.S? then StrLe(x.s, y.s)
    else Rank(x) < Rank(y)
  }

  lemma CompLeFacts(x: Component, y: Component, z: Component)
    ensures CompLe(x, x)
    ensures CompLe(x, y) || CompLe(y, x)
    ensures CompLe(x, y) && CompLe(y, x) ==> x == y
    ensures CompLe(x, y) && CompLe(y, z) ==> CompLe(x, z)
  {
    if x.S? { StrLeRefl(x.s); }
    if x.S? && y.S? {
      StrLeTotal(x.s, y.s);
      if StrLe(x.s, y.s) && StrLe(y.s, x.s) { StrLeAntisym(x.s, y.s); }
      if z.S? && StrLe(x.s, y.s) && StrLe(y.s, z.s) { StrLeTrans(x.s, y.s, z.s); }
    }
  }

  type Key = seq<Component>

  /** Python's `a <= b` on tuples: the first differing element decides, and a
      tuple that is a prefix of the other is the smaller. */
  predicate KeyLe(a: Key, b: Key)
    decreases |a|
  {
    a == [] || (b != [] && ((CompLe(a[0], b[0]) && a[0] != b[0]) || (a[0] == b[0] && KeyLe(a[1..], b[1..]))))
  }

  lemma {:induction false} KeyLeRefl(a: Key)
    ensures KeyLe(a, a)
    decreases |a|
  {
    if a != [] { KeyLeRefl(a[1..]); }
  }

  lemma {:induction false} KeyLeTotal(a: Key, b: Key)
    ensures KeyLe(a, b) || KeyLe(b, a)
    decreases |a|
  {
    if a != [] && b != [] {
      CompLeFacts(a[0], b[0], b[0]);
      if a[0] == b[0] { KeyLeTotal(a[1..], b[1..]); }
    }
  }

  lemma {:induction false} KeyLeTrans(a: Key, b: Key, c: Key)
    requires KeyLe(a, b) && KeyLe(b, c)
    ensures KeyLe(a, c)
    decreases |a|
  {
    if a != [] {
      CompLeFacts(a[0], b[0], c[0]);
      CompLeFacts(b[0], c[0], a[0]);
      CompLeFacts(a[0], c[0], b[0]);
      if a[0] == b[0] && b[0] == c[0] { KeyLeTrans(a[1..], b[1..], c[1..]); }
    }
  }

  lemma {:induction false} KeyLeAntisym(a: Key, b: Key)
    requires KeyLe(a, b) && KeyLe(b, a)
    ensures a == b
    decreases |a|
  {
    if a != [] {
      CompLeFacts(a[0], b[0], b[0]);
      KeyLeAntisym(a[1..], b[1..]);
      assert a == [a[0]] + a[1..] && b == [b[0]] + b[1..];
    }
  }

  /** Two-element keys compare by their first elements, then by their
      second. */
  lemma KeyLePair(a0: Component, a1: Component, b0: Component, b1: Component)
    ensures KeyLe([a0, a1], [b0, b1]) <==> (CompLe(a0, b0) && a0 != b0) || (a0 == b0 && CompLe(a1, b1))
  {
    assert [a0, a1][1..] == [a1] && [b0, b1][1..] == [b1];
    assert [a1][1..] == [] && [b1][1..] == [];
    CompLeFacts(a1, b1, b1);
    assert KeyLe([], []);
    assert KeyLe([a1], [b1]) <==> CompLe(a1, b1);
    assert KeyLe([a0, a1], [b0, b1]) <==> (CompLe(a0, b0) && a0 != b0) || (a0 == b0 && KeyLe([a1], [b1]));
  }

  /** An element decorated with its sort key, as list.sort(key=...) does. */
  datatype Keyed<T> = Keyed(key: Key, item: T)

  /** Every element's key is at most every later element's key. */
  predicate Sorted<T>(s: seq<Keyed<T>>) {
    forall i, j :: 0 <= i < j < |s| ==> KeyLe(s[i].key, s[j].key)
  }

  /** The elements whose key is k, in their order in s. A sort is stable when
      this subsequence is the same before and after, for every k. */
  function Select<T>(s: seq<Keyed<T>>, k: Key): seq<Keyed<T>> {
    if s == [] then []
    else (if s[0].key == k then [s[0]] else []) + Select(s[1..], k)
  }

  /** Places x in front of the first element whose key is not smaller. */
  function Insert<T>(t: seq<Keyed<T>>, x: Keyed<T>): seq<Keyed<T>> {
    if t == [] || KeyLe(x.key, t[0].key) then [x] + t else [t[0]] + Insert(t[1..], x)
  }

  /** list.sort(key=...): a stable sort by key. */
  function SortByKey<T>(s: seq<Keyed<T>>): seq<Keyed<T>> {
    if s == [] then [] else Insert(SortByKey(s[1..]), s[0])
  }

  /** The items without their keys. */
  function Items<T>(s: seq<Keyed<T>>): (r: seq<T>)
    ensures |r| == |s| && forall i :: 0 <= i < |s| ==> r[i] == s[i].item
  {
    seq(|s|, i requires 0 <= i < |s| => s[i].item)
  }

  /** Inserting adds exactly the one item to the items. */
  lemma {:induction false} InsertItems<T>(t: seq<Keyed<T>>, x: Keyed<T>)
    ensures multiset(Items(Insert(t, x))) == multiset(Items(t)) + multiset{x.item}
  {
    if t == [] || KeyLe(x.key, t[0].key) {
      assert Items([x] + t) == [x.item] + Items(t);
    } else {
      InsertItems(t[1..], x);
      assert Items([t[0]] + Insert(t[1..], x)) == [t[0].item] + Items(Insert(t[1..], x));
      assert Items(t) == [t[0].item] + Items(t[1..]);
    }
  }

  /** Sorting rearranges the items and neither adds nor drops any. */
  lemma {:induction false} SortItems<T>(s: seq<Keyed<T>>)
    ensures multiset(Items(SortByKey(s))) == multiset(Items(s))
  {
    if s != [] {
      SortItems(s[1..]);
      InsertItems(SortByKey(s[1..]), s[0]);
      assert Items(s) == [s[0].item] + Items(s[1..]);
    }
  }

  lemma {:induction false} InsertPermutes<T>(t: seq<Keyed<T>>, x: Keyed<T>)
    ensures multiset(Insert(t, x)) == multiset(t) + multiset{x}
    ensures |Insert(t, x)| == |t| + 1
  {
    if t != [] && !KeyLe(x.key, t[0].key) {
      InsertPermutes(t[1..], x);
      assert t == [t[0]] + t[1..];
    }
  }

  /** Inserting keeps a sorted sequence sorted. */
  lemma {:induction false} InsertSorted<T>(t: seq<Keyed<T>>, x: Keyed<T>)
    requires Sorted(t)
    ensures Sorted(Insert(t, x))
  {
    if t == [] {
    } else if KeyLe(x.key, t[0].key) {
      forall j | 0 <= j < |t| ensures KeyLe(x.key, t[j].key) {
        if j > 0 { KeyLeTrans(x.key, t[0].key, t[j].key); }
      }
      ConsSorted(x, t);
    } else {
      KeyLeTotal(x.key, t[0].key);
      InsertSorted(t[1..], x);
      InsertLowerBound(t[1..], x, t[0].key);
      ConsSorted(t[0], Insert(t[1..], x));
    }
  }

  /** A head no greater than any element of a sorted tail makes a sorted
      sequence. */
  lemma ConsSorted<T>(h: Keyed<T>, rest: seq<Keyed<T>>)
    requires Sorted(rest)
    requires forall j :: 0 <= j < |rest| ==> KeyLe(h.key, rest[j].key)
    ensures Sorted([h] + rest)
  {
    var r := [h] + rest;
    forall i, j | 0 <= i < j < |r| ensures KeyLe(r[i].key, r[j].key) {
      if i == 0 { assert r[j] == rest[j - 1]; }
      else { assert r[i] == rest[i - 1] && r[j] == rest[j - 1]; }
    }
  }

  /** A lower bound of every key, and of the inserted key, bounds every key
      after the insertion. */
  lemma {:induction false} InsertLowerBound<T>(t: seq<Keyed<T>>, x: Keyed<T>, lo: Key)
    requires forall j :: 0 <= j < |t| ==> KeyLe(lo, t[j].key)
    requires KeyLe(lo, x.key)
    ensures forall j :: 0 <= j < |Insert(t, x)| ==> KeyLe(lo, Insert(t, x)[j].key)
  {
    var r := Insert(t, x);
    if t == [] || KeyLe(x.key, t[0].key) {
      forall j | 0 <= j < |r| ensures KeyLe(lo, r[j].key) {
        if j > 0 { assert r[j] == t[j - 1]; }
      }
    } else {
      var rest := Insert(t[1..], x);
      InsertLowerBound(t[1..], x, lo);
      forall j | 0 <= j < |r| ensures KeyLe(lo, r[j].key) {
        if j > 0 { assert r[j] == rest[j - 1]; }
      }
    }
  }

  /** Inserting x adds x to the selection of its own key at the front and
      changes no other key's selection. */
  lemma {:induction false} InsertSelect<T>(t: seq<Keyed<T>>, x: Keyed<T>, k: Key)
    ensures Select(Insert(t, x), k) == (if x.key == k then [x] else []) + Select(t, k)
  {
    if t == [] || KeyLe(x.key, t[0].key) {
      assert ([x] + t)[1..] == t;
    } else {
      InsertSelect(t[1..], x, k);
      assert ([t[0]] + Insert(t[1..], x))[1..] == Insert(t[1..], x);
      if t[0].key == k && x.key == k { KeyLeRefl(k); }
    }
  }

  /** The sort returns a permutation of its input. */
  lemma {:induction false} SortPermutes<T>(s: seq<Keyed<T>>)
    ensures multiset(SortByKey(s)) == multiset(s)
    ensures |SortByKey(s)| == |s|
  {
    if s != [] {
      SortPermutes(s[1..]);
      InsertPermutes(SortByKey(s[1..]), s[0]);
      assert s == [s[0]] + s[1..];
    }
  }

  /** The sort returns a sequence ordered by key. */
  lemma {:induction false} SortSorted<T>(s: seq<Keyed<T>>)
    ensures Sorted(SortByKey(s))
  {
    if s != [] {
      SortSorted(s[1..]);
      InsertSorted(SortByKey(s[1..]), s[0]);
    }
  }

  /** The sort is stable: the elements that share a key keep their order. */
  lemma {:induction false} SortStable<T>(s: seq<Keyed<T>>, k: Key)
    ensures Select(SortByKey(s), k) == Select(s, k)
  {
    if s != [] {
      SortStable(s[1..], k);
      InsertSelect(SortByKey(s[1..]), s[0], k);
    }
  }

  lemma {:induction false} SelectHasKey<T>(s: seq<Keyed<T>>, k: Key)
    requires Select(s, k) != []
    ensures exists j :: 0 <= j < |s| && s[j].key == k
  {
    if s[0].key != k {
      SelectHasKey(s[1..], k);
      var j :| 0 <= j < |s[1..]| && s[1..][j].key == k;
      assert s[j + 1].key == k;
    }
  }

  lemma HeadKeyIsLeast<T>(t: seq<Keyed<T>>, k: Key)
    requires Sorted(t) && t != [] && Select(t, k) != []
    ensures KeyLe(t[0].key, k)
  {
    SelectHasKey(t, k);
    var j :| 0 <= j < |t| && t[j].key == k;
    if j == 0 { KeyLeRefl(k); }
  }

  /** Two sorted sequences that agree on the elements of every key, in
      order, are the same sequence: a stable sort has one possible output. */
  lemma {:induction false} StableSortUnique<T>(t: seq<Keyed<T>>, u: seq<Keyed<T>>)
    requires Sorted(t) && Sorted(u)
    requires forall k :: Select(t, k) == Select(u, k)
    ensures t == u
    decreases |t|
  {
    if t != [] {
      var k0 := t[0].key;
      assert Select(t, k0) != [];
      assert u != [] by { assert Select(u, k0) != []; }
      var k1 := u[0].key;
      assert Select(u, k1) != [];
      HeadKeyIsLeast(t, k1);
      HeadKeyIsLeast(u, k0);
      KeyLeAntisym(k0, k1);
      assert Select(t, k0)[0] == t[0];
      assert Select(u, k0)[0] == u[0];
      assert t[0] == u[0];
      forall k ensures Select(t[1..], k) == Select(u[1..], k) {
        var p := if k == k0 then [t[0]] else [];
        assert Select(t, k) == p + Select(t[1..], k);
        assert Select(u, k) == p + Select(u[1..], k);
        assert Select(t[1..], k) == (p + Select(t[1..], k))[|p|..];
        assert Select(u[1..], k) == (p + Select(u[1..], k))[|p|..];
      }
      StableSortUnique(t[1..], u[1..]);
      assert t == [t[0]] + t[1..] && u == [u[0]] + u[1..];
    }
  }

  /** Any sorted rearrangement that keeps the order of equal keys is the
      result of SortByKey. */
  lemma SortByKeyIsTheStableSort<T>(s: seq<Keyed<T>>, u: seq<Keyed<T>>)
    requires Sorted(u)
    requires forall k :: Select(u, k) == Select(s, k)
    ensures u == SortByKey(s)
  {
    SortSorted(s);
    forall k ensures Select(SortByKey(s), k) == Select(u, k) { SortStable(s, k); }
    StableSortUnique(SortByKey(s), u);
  }
}
