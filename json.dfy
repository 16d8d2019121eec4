/** A decoded JSON document as the Python code sees it after json.load:
    None, bool, int, str, list or dict. Python's truthiness, `a or b`,
    dict.get and str() are written out over it. */
module Json {
  import opened Text

  /** A dict keeps its entries in insertion order; its keys are distinct, as
      in a Python dict, so looking up the first entry with a key is the
      dict's lookup. */
  datatype Json =
    | Null
    | Bool(b: bool)
    | Int(i: int)
    | Str(s: string)
    | Arr(items: seq<Json>)
    | Obj(entries: seq<(string, Json)>)

  /** Python's bool(x): None, False, 0, "", [] and {} are false. */
  predicate Truthy(j: Json) {
    match j
    case Null => false
    case Bool(b) => b
    case Int(i) => i != 0
    case Str(s) => s != ""
    case Arr(xs) => xs != []
    case Obj(es) => es != []
  }

  /** Python's `a or b`: the first operand when it is truthy, else the second. */
  function Or(a: Json, b: Json): (r: Json)
    ensures Truthy(r) <==> Truthy(a) || Truthy(b)
    ensures r == a || r == b
    ensures Truthy(a) ==> r == a
  {
    if Truthy(a) then a else b
  }

  function Lookup(es: seq<(string, Json)>, key: string): Json {
    if es == [] then Null
    else if es[0].0 == key then es[0].1
    else Lookup(es[1..], key)
  }

  /** Python's d.get(key): the value stored under key, None when there is
      none. Only called on dicts; any other value answers None. */
  function Get(j: Json, key: string): Json {
    if j.Obj? then Lookup(j.entries, key) else Null
  }

  /** The keys of a dict, in order. */
  function Keys(j: Json): seq<string>
    requires j.Obj?
  {
    seq(|j.entries|, i requires 0 <= i < |j.entries| => j.entries[i].0)
  }

  /** Looking up the key of the k-th entry finds that entry's value when no
      earlier entry has the same key. */
  lemma {:induction false} LookupAt(es: seq<(string, Json)>, k: nat)
    requires k < |es|
    requires forall i :: 0 <= i < k ==> es[i].0 != es[k].0
    ensures Lookup(es, es[k].0) == es[k].1
  {
    if k > 0 {
      LookupAt(es[1..], k - 1);
    }
  }

  /** A key that no entry has is looked up as None. */
  lemma {:induction false} LookupMissing(es: seq<(string, Json)>, key: string)
    requires forall i :: 0 <= i < |es| ==> es[i].0 != key
    ensures Lookup(es, key) == Null
  {
    if es != [] {
      LookupMissing(es[1..], key);
    }
  }

  function NatToString(n: nat): (r: string)
    ensures |r| > 0 && forall i :: 0 <= i < |r| ==> IsDigit(r[i])
  {
    var d := [('0' as int + n % 10) as char];
    if n < 10 then d else NatToString(n / 10) + d
  }

  /** str(n) for an int: an optional minus sign and the decimal digits. */
  function IntToString(n: int): string {
    if n < 0 then "-" + NatToString(-n) else NatToString(n)
  }

  /** Python's str(x). Strings inside containers are shown between single
      quotes without escaping. */
  function PyStr(j: Json): string
    decreases j, 0
  {
    match j
    case Null => "None"
    case Bool(b) => if b then "True" else "False"
    case Int(i) => IntToString(i)
    case Str(s) => s
    case Arr(xs) =>
      "[" + Join(", ", seq(|xs|, k requires 0 <= k < |xs| => Repr(xs[k]))) + "]"
    case Obj(es) =>
      "{" + Join(", ", seq(|es|, k requires 0 <= k < |es| =>
                             assert es[k] in es; "'" + es[k].0 + "': " + Repr(es[k].1))) + "}"
  }

  /** Python's repr(x), as it appears inside a container's str(). */
  function Repr(j: Json): string
    decreases j, 1
  {
    if j.Str? then "'" + j.s + "'" else PyStr(j)
  }
}
