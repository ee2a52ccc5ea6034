/**
 * The records the upstream search service returns, as JavaScript sees them
 * after JSON decoding, and the sparse projection of api/index.js:48 and :111,
 * which rebuilds each record from its entries filtered by truthiness, keeping
 * only the fields whose value is truthy.
 */
module Records {
  import opened Wrappers

  /** The scalar JSON values a record field holds. */
  datatype Value = Null | Int(n: int) | Str(s: string) | Bool(b: bool)

  /** JavaScript's ToBoolean: null, 0, the empty string and false are falsy. */
  predicate Truthy(v: Value) {
    match v
    case Null => false
    case Int(n) => n != 0
    case Str(s) => s != ""
    case Bool(b) => b
  }

  datatype Field = Field(key: string, value: Value)

  /** A decoded record, its fields in `Object.entries` order. */
  type Record = seq<Field>

  /** A decoded JSON object never holds two fields with the same key. */
  predicate DistinctKeys(r: Record) {
    forall i, j :: 0 <= i < j < |r| ==> r[i].key != r[j].key
  }

  /** A record as `JSON.parse` produces it: a later duplicate key has replaced the earlier one. */
  type JsonObject = r: Record | DistinctKeys(r) witness []

  /** Property access `e[k]`; None stands for `undefined`. */
  function Get(r: Record, k: string): Option<Value> {
    if r == [] then None
    else if r[0].key == k then Some(r[0].value)
    else Get(r[1..], k)
  }

  /** The field is present and its value is truthy. */
  predicate TruthyField(r: Record, k: string) {
    Get(r, k).Some? && Truthy(Get(r, k).value)
  }

  predicate AllTruthy(r: Record) {
    forall i :: 0 <= i < |r| ==> Truthy(r[i].value)
  }

  /** The sparse projection: the fields of r whose value is truthy, in their order. */
  function Sparse(r: Record): (p: Record)
    ensures AllTruthy(p)
    ensures forall f :: f in p <==> f in r && Truthy(f.value)
    ensures |p| <= |r|
  {
    if r == [] then []
    else if Truthy(r[0].value) then [r[0]] + Sparse(r[1..])
    else Sparse(r[1..])
  }

  /** The projection mapped over a page: one projected record per record, in page order. */
  function MapSparse(rs: seq<Record>): (ps: seq<Record>)
    ensures |ps| == |rs|
    ensures forall i :: 0 <= i < |rs| ==> ps[i] == Sparse(rs[i])
  {
    if rs == [] then [] else [Sparse(rs[0])] + MapSparse(rs[1..])
  }

  /** The structured-mode entry of api/index.js:86: a lone `error` field holding the upstream error as text. */
  function ErrorEntry(message: string): Record {
    [Field("error", Str(message))]
  }

  predicate IsErrorEntry(r: Record) {
    |r| == 1 && r[0].key == "error" && r[0].value.Str?
  }

  /** Projection distributes over concatenation, so it keeps the relative order of the fields. */
  lemma {:induction false} SparseAppend(a: Record, b: Record)
    ensures Sparse(a + b) == Sparse(a) + Sparse(b)
  {
    if a == [] {
      assert a + b == b;
    } else {
      assert (a + b)[0] == a[0];
      assert (a + b)[1..] == a[1..] + b;
      SparseAppend(a[1..], b);
    }
  }

  /** A record whose fields are all truthy is its own projection; so projecting twice is projecting once. */
  lemma {:induction false} SparseOfTruthy(r: Record)
    requires AllTruthy(r)
    ensures Sparse(r) == r
  {
    if r != [] {
      assert Truthy(r[0].value);
      SparseOfTruthy(r[1..]);
    }
  }

  lemma SparseIdempotent(r: Record)
    ensures Sparse(Sparse(r)) == Sparse(r)
  {
    SparseOfTruthy(Sparse(r));
  }

  lemma {:induction false} GetAbsent(r: Record, k: string)
    requires forall i :: 0 <= i < |r| ==> r[i].key != k
    ensures Get(r, k) == None
  {
    if r != [] {
      GetAbsent(r[1..], k);
    }
  }

  lemma {:induction false} SparseKeepsDistinct(r: Record)
    requires DistinctKeys(r)
    ensures DistinctKeys(Sparse(r))
  {
    if r != [] {
      var rest := r[1..];
      assert DistinctKeys(rest) by {
        forall i, j | 0 <= i < j < |rest| ensures rest[i].key != rest[j].key {
          assert rest[i] == r[i + 1] && rest[j] == r[j + 1];
        }
      }
      SparseKeepsDistinct(rest);
      if Truthy(r[0].value) {
        var q := Sparse(rest);
        assert Sparse(r) == [r[0]] + q;
        forall j | 0 <= j < |q| ensures q[j].key != r[0].key {
          KeyFromTail(r, q[j]);
        }
      }
    }
  }

  lemma KeyFromTail(r: Record, f: Field)
    requires |r| > 0 && DistinctKeys(r)
    requires f in r[1..]
    ensures f.key != r[0].key
  {
    var m :| 0 <= m < |r[1..]| && r[1..][m] == f;
    assert r[m + 1] == f;
  }

  /**
   * Looking a key up in the projection gives the original value when it is
   * truthy and `undefined` otherwise.
   */
  lemma {:induction false} SparseGet(r: Record, k: string)
    requires DistinctKeys(r)
    ensures Get(Sparse(r), k) == if TruthyField(r, k) then Get(r, k) else None
  {
    if r != [] {
      if r[0].key == k {
        if !Truthy(r[0].value) {
          forall i | 0 <= i < |Sparse(r[1..])| ensures Sparse(r[1..])[i].key != k {
            KeyFromTail(r, Sparse(r[1..])[i]);
          }
          GetAbsent(Sparse(r[1..]), k);
        }
      } else {
        SparseGet(r[1..], k);
      }
    }
  }
}
