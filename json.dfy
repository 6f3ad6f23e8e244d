/** Parsed JSON values and the JavaScript idioms the fix rules apply to them:
    truthiness, `o.k || d`, `o.k = o.k || {}` and spreading `o.k || []`. */
module Json {
  import opened Wrappers

  datatype Json =
    | Null
    | Bool(b: bool)
    | Num(n: real)
    | Str(s: string)
    | Arr(items: seq<Json>)
    | Obj(fields: map<string, Json>)

  /** What a rule can trip over in a parsed document: writing a property of a
      primitive, or spreading something that is not iterable (both throw a
      TypeError in strict mode). */
  datatype JsError = NotAnObject(key: string) | NotIterable(key: string)

  /** JavaScript truthiness (JSON has no NaN). */
  predicate Truthy(v: Json) {
    match v
    case Null => false
    case Bool(b) => b
    case Num(n) => n != 0.0
    case Str(s) => s != []
    case Arr(_) => true
    case Obj(_) => true
  }

  /** `o[k]` is a truthy value. An absent key reads as `undefined`. */
  predicate Present(o: map<string, Json>, k: string) {
    k in o && Truthy(o[k])
  }

  /** `o[k] || d`. */
  function Or(o: map<string, Json>, k: string, d: Json): (r: Json)
    ensures Present(o, k) ==> r == o[k]
    ensures !Present(o, k) ==> r == d
  {
    if Present(o, k) then o[k] else d
  }

  /** `o.k || d` is the stored value or the default, and it is truthy exactly
      when one of the two is: a truthy default always gives a truthy result. */
  lemma OrTruthy(o: map<string, Json>, k: string, d: Json)
    ensures Or(o, k, d) == d || (k in o && Or(o, k, d) == o[k])
    ensures Truthy(Or(o, k, d)) <==> Present(o, k) || Truthy(d)
  {
  }

  /** `o[k] = o[k] || {}` followed by property writes on `o[k]`: a missing or
      falsy value starts as an empty object; a truthy non-object throws. */
  function ObjectField(o: map<string, Json>, k: string): (r: Result<map<string, Json>, JsError>)
    ensures r.Err? <==> Present(o, k) && !o[k].Obj?
    ensures r.Ok? && Present(o, k) ==> Obj(r.value) == o[k]
    ensures r.Ok? && !Present(o, k) ==> r.value == map[]
  {
    if !Present(o, k) then Ok(map[])
    else if o[k].Obj? then Ok(o[k].fields)
    else Err(NotAnObject(k))
  }

  /** Reading back an object stored under `k` gives its fields. */
  lemma ObjectFieldOfObj(o: map<string, Json>, k: string, f: map<string, Json>)
    requires k in o && o[k] == Obj(f)
    ensures ObjectField(o, k) == Ok(f)
  {
  }

  /** `[...(o[k] || [])]`: an array spreads into its items, a string into its
      characters; any other truthy value is not iterable. */
  function Spread(o: map<string, Json>, k: string): Result<seq<Json>, JsError> {
    if !Present(o, k) then Ok([])
    else match o[k]
      case Arr(items) => Ok(items)
      case Str(s) => Ok(seq(|s|, i requires 0 <= i < |s| => Str([s[i]])))
      case _ => Err(NotIterable(k))
  }

  /** Keys paired with default strings, as an object literal lists them. */
  type Defaults = seq<(string, string)>

  predicate DistinctKeys(ds: Defaults) {
    forall i, j :: 0 <= i < j < |ds| ==> ds[i].0 != ds[j].0
  }

  predicate HasKey(ds: Defaults, k: string) {
    exists i :: 0 <= i < |ds| && ds[i].0 == k
  }

  /** `o[k] = o[k] || v` for each pair `(k, v)` of `ds`, in order. */
  function FillDefaults(o: map<string, Json>, ds: Defaults): map<string, Json>
    decreases |ds|
  {
    if ds == [] then o
    else
      var o' := FillDefaults(o, ds[..|ds| - 1]);
      var (k, v) := ds[|ds| - 1];
      o'[k := Or(o', k, Str(v))]
  }

  /** `o[k] = v` for each pair `(k, v)` of `ds`, in order. */
  function AssignAll(o: map<string, Json>, ds: Defaults): map<string, Json>
    decreases |ds|
  {
    if ds == [] then o
    else
      var (k, v) := ds[|ds| - 1];
      AssignAll(o, ds[..|ds| - 1])[k := Str(v)]
  }

  /** Filling defaults keeps every truthy value, fills exactly the keys that
      are missing or falsy, and touches no other key. */
  lemma {:induction false} FillDefaultsAt(o: map<string, Json>, ds: Defaults, k: string)
    requires DistinctKeys(ds)
    ensures var r := FillDefaults(o, ds);
            && (k in r <==> k in o || HasKey(ds, k))
            && (!HasKey(ds, k) && k in o ==> r[k] == o[k])
            && (forall i :: 0 <= i < |ds| && ds[i].0 == k ==>
                  r[k] == (if Present(o, k) then o[k] else Str(ds[i].1)))
    decreases |ds|
  {
    if ds != [] {
      var front := ds[..|ds| - 1];
      FillDefaultsAt(o, front, k);
      assert HasKey(ds, k) <==> HasKey(front, k) || ds[|ds| - 1].0 == k by {
        if HasKey(ds, k) {
          var i :| 0 <= i < |ds| && ds[i].0 == k;
          if i < |ds| - 1 { assert front[i] == ds[i]; }
        }
        if HasKey(front, k) {
          var i :| 0 <= i < |front| && front[i].0 == k;
          assert ds[i] == front[i];
        }
      }
      if ds[|ds| - 1].0 == k {
        forall i | 0 <= i < |front| ensures front[i].0 != k {
          assert front[i] == ds[i];
        }
      }
      forall i | 0 <= i < |ds| - 1 && ds[i].0 == k
        ensures HasKey(front, k) && front[i].0 == k
      {
        assert front[i] == ds[i];
      }
    }
  }

  /** Once every listed key holds a truthy value, filling defaults is a no-op. */
  lemma {:induction false} FillDefaultsNoop(o: map<string, Json>, ds: Defaults)
    requires forall i :: 0 <= i < |ds| ==> Present(o, ds[i].0)
    ensures FillDefaults(o, ds) == o
    decreases |ds|
  {
    if ds != [] {
      var front := ds[..|ds| - 1];
      assert forall i :: 0 <= i < |front| ==> front[i] == ds[i];
      FillDefaultsNoop(o, front);
    }
  }

  /** After filling non-empty defaults, every listed key holds a truthy value. */
  lemma {:induction false} FillDefaultsEstablishes(o: map<string, Json>, ds: Defaults)
    requires forall i :: 0 <= i < |ds| ==> ds[i].1 != []
    ensures forall i :: 0 <= i < |ds| ==> Present(FillDefaults(o, ds), ds[i].0)
    decreases |ds|
  {
    if ds != [] {
      var front := ds[..|ds| - 1];
      assert forall i :: 0 <= i < |front| ==> front[i] == ds[i];
      FillDefaultsEstablishes(o, front);
      forall i | 0 <= i < |ds| - 1 ensures Present(FillDefaults(o, ds), ds[i].0) {
        assert Present(FillDefaults(o, front), front[i].0);
      }
    }
  }

  /** Assigning the listed keys over an object that already holds exactly
      those values is a no-op. */
  lemma {:induction false} AssignAllNoop(o: map<string, Json>, ds: Defaults)
    requires forall i :: 0 <= i < |ds| ==> ds[i].0 in o && o[ds[i].0] == Str(ds[i].1)
    ensures AssignAll(o, ds) == o
    decreases |ds|
  {
    if ds != [] {
      var front := ds[..|ds| - 1];
      assert forall i :: 0 <= i < |front| ==> front[i] == ds[i];
      AssignAllNoop(o, front);
    }
  }

  /** Assigning writes each listed key and leaves every other key alone. */
  lemma {:induction false} AssignAllAt(o: map<string, Json>, ds: Defaults, k: string)
    requires DistinctKeys(ds)
    ensures var r := AssignAll(o, ds);
            && (k in r <==> k in o || HasKey(ds, k))
            && (!HasKey(ds, k) && k in o ==> r[k] == o[k])
            && (forall i :: 0 <= i < |ds| && ds[i].0 == k ==> r[k] == Str(ds[i].1))
    decreases |ds|
  {
    if ds != [] {
      var front := ds[..|ds| - 1];
      AssignAllAt(o, front, k);
      assert HasKey(ds, k) <==> HasKey(front, k) || ds[|ds| - 1].0 == k by {
        if HasKey(ds, k) {
          var i :| 0 <= i < |ds| && ds[i].0 == k;
          if i < |ds| - 1 { assert front[i] == ds[i]; }
        }
        if HasKey(front, k) {
          var i :| 0 <= i < |front| && front[i].0 == k;
          assert ds[i] == front[i];
        }
      }
      forall i | 0 <= i < |ds| - 1 && ds[i].0 == k
        ensures HasKey(front, k) && front[i].0 == k
      {
        assert front[i] == ds[i];
      }
    }
  }
}
