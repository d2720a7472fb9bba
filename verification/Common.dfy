/** Small vocabulary shared by every module of the project. */
module Common {

  datatype Option<+T> = None | Some(value: T)

  datatype Result<+T, +E> = Ok(value: T) | Err(error: E)

  /** Some member of a set. */
  method AnyOf<T>(s: set<T>) returns (x: T)
    requires s != {}
    ensures x in s
  {
    x :| x in s;
  }

  /** A subset is no larger, and is the whole set when it is as large. */
  lemma {:induction false} SubsetSize<T>(a: set<T>, b: set<T>)
    requires a <= b
    ensures |a| <= |b| && (|a| == |b| ==> a == b)
  {
    if a != {} {
      var x :| x in a;
      SubsetSize(a - {x}, b - {x});
    }
  }

  /** Sum of `f` over the values of a finite map. */
  ghost function Total<K(!new), V>(m: map<K, V>, f: V -> nat): nat
    decreases |m|
  {
    if m == map[] then 0
    else
      var k :| k in m;
      f(m[k]) + Total(m - {k}, f)
  }

  /** Any key may be split off first: the sum does not depend on the order of summation. */
  lemma {:induction false} TotalSplit<K(!new), V>(m: map<K, V>, f: V -> nat, k: K)
    requires k in m
    ensures Total(m, f) == f(m[k]) + Total(m - {k}, f)
    decreases |m|
  {
    var j :| j in m && Total(m, f) == f(m[j]) + Total(m - {j}, f);
    if j != k {
      TotalSplit(m - {j}, f, k);
      TotalSplit(m - {k}, f, j);
      assert m - {j} - {k} == m - {k} - {j};
    }
  }

  /** Replacing one value changes the sum by the difference of the two values. */
  lemma TotalUpdate<K(!new), V>(m: map<K, V>, f: V -> nat, k: K, v: V)
    requires k in m
    ensures Total(m[k := v], f) + f(m[k]) == Total(m, f) + f(v)
  {
    TotalSplit(m, f, k);
    TotalSplit(m[k := v], f, k);
    assert m[k := v] - {k} == m - {k};
  }

  /** Adding a key adds its value. */
  lemma TotalInsert<K(!new), V>(m: map<K, V>, f: V -> nat, k: K, v: V)
    requires k !in m
    ensures Total(m[k := v], f) == Total(m, f) + f(v)
  {
    TotalSplit(m[k := v], f, k);
    assert m[k := v] - {k} == m;
  }
}
