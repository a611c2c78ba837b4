/** The RethinkDB side seen by both libraries: JSON values, the exceptions a
    query can raise, the queries a connection sends, and the rule both
    libraries use to tolerate a creation that finds its target already there. */
module Store {

  /** A JSON value as stored in a RethinkDB document. */
  datatype Json =
    | Null
    | Bool(b: bool)
    | Number(n: real)
    | Str(s: string)
    | Array(items: seq<Json>)
    | Object(fields: map<string, Json>)

  /** ReQL's merge of an update's value `patch` into a stored value `base`:
      when both are objects, the fields of `patch` are merged into those of
      `base`, recursively where both hold a field; anything else is replaced
      by `patch` outright (arrays included). */
  function Merge(base: Json, patch: Json): Json
    decreases patch
  {
    if base.Object? && patch.Object? then
      Object(map k | k in base.fields.Keys + patch.fields.Keys ::
        if k !in patch.fields then base.fields[k]
        else if k in base.fields then Merge(base.fields[k], patch.fields[k])
        else patch.fields[k])
    else patch
  }

  /** Everything `patch` states, `v` states too: the same value where `patch`
      is not an object, and every field of an object `patch` present in `v`
      with a value that in turn agrees with it. */
  predicate Agrees(v: Json, patch: Json)
    decreases patch
  {
    if patch.Object? then
      v.Object? && forall k :: k in patch.fields ==> k in v.fields && Agrees(v.fields[k], patch.fields[k])
    else v == patch
  }

  /** A merged value reads back everything the update wrote. */
  lemma {:induction false} MergeAgrees(base: Json, patch: Json)
    ensures Agrees(Merge(base, patch), patch)
    decreases patch
  {
    if base.Object? && patch.Object? {
      var m := Merge(base, patch);
      forall k | k in patch.fields
        ensures k in m.fields && Agrees(m.fields[k], patch.fields[k])
      {
        if k in base.fields {
          MergeAgrees(base.fields[k], patch.fields[k]);
        } else {
          AgreesSelf(patch.fields[k]);
        }
      }
    } else {
      AgreesSelf(patch);
    }
  }

  lemma {:induction false} AgreesSelf(v: Json)
    ensures Agrees(v, v)
    decreases v
  {
    if v.Object? {
      forall k | k in v.fields ensures Agrees(v.fields[k], v.fields[k]) {
        AgreesSelf(v.fields[k]);
      }
    }
  }

  /** Fields of a stored object that the update does not mention survive it
      unchanged, and no field but those of the two objects appears. */
  lemma MergeKeeps(base: Json, patch: Json)
    requires base.Object? && patch.Object?
    ensures Merge(base, patch).Object?
    ensures Merge(base, patch).fields.Keys == base.fields.Keys + patch.fields.Keys
    ensures forall k :: k in base.fields && k !in patch.fields ==> Merge(base, patch).fields[k] == base.fields[k]
  {
  }

  /** Unless both values are objects, the update replaces the stored value. */
  lemma MergeReplaces(base: Json, patch: Json)
    requires !base.Object? || !patch.Object?
    ensures Merge(base, patch) == patch
  {
  }

  /** What a query can raise: `r.RqlRuntimeError` (the only kind either
      library catches), any other driver error, or a plain Python `Exception`. */
  datatype Error =
    | RuntimeError(message: string)
    | DriverError(message: string)
    | Raised(message: string)

  /** A call that returns nothing, or raises. */
  datatype Outcome = Pass | Fail(error: Error)

  /** A call that returns a value, or raises. */
  datatype Result<T> = Ok(value: T) | Err(error: Error)

  /** The queries a connection sends, by kind and target. */
  datatype Query =
    | DbCreate(db: string)
    | TableCreate(table: string)
    | Insert(table: string)
    | Update(table: string)
    | Changes(table: string)

  /** What the generator loop `for item in items: yield f(item)` yields for a
      finite `items`. */
  function Yielded<T, U>(items: seq<T>, f: T -> U): (r: seq<U>)
    ensures |r| == |items|
  {
    seq(|items|, i requires 0 <= i < |items| => f(items[i]))
  }

  /** A generator's output for a stream read in two parts is its output for
      the first part followed by its output for the second. */
  lemma YieldedAppend<T, U>(a: seq<T>, b: seq<T>, f: T -> U)
    ensures Yielded(a + b, f) == Yielded(a, f) + Yielded(b, f)
  {
    assert forall i :: 0 <= i < |a + b| ==> Yielded(a + b, f)[i] == (Yielded(a, f) + Yielded(b, f))[i];
  }

  /** The generator loop itself, one item at a time. */
  method YieldEach<T, U>(items: seq<T>, f: T -> U) returns (out: seq<U>)
    ensures out == Yielded(items, f)
  {
    out := [];
    for i := 0 to |items|
      invariant out == Yielded(items[..i], f)
    {
      assert items[..i + 1] == items[..i] + [items[i]];
      YieldedAppend(items[..i], [items[i]], f);
      out := out + [f(items[i])];
    }
    assert items[..|items|] == items;
  }

  /** Python's `sub in s` on strings. */
  predicate Contains(s: string, sub: string)
    decreases |s|
  {
    if |s| < |sub| then false else s[..|sub|] == sub || Contains(s[1..], sub)
  }

  lemma {:induction false} ContainsInfix(a: string, sub: string, b: string)
    ensures Contains(a + sub + b, sub)
  {
    if a == [] {
      assert (a + sub + b)[..|sub|] == sub;
    } else {
      ContainsInfix(a[1..], sub, b);
      assert (a + sub + b)[1..] == a[1..] + sub + b;
    }
  }

  /** Conversely, `sub in s` only when `s` has `sub` as an infix. */
  lemma {:induction false} ContainsIsInfix(s: string, sub: string)
    requires Contains(s, sub)
    ensures exists a, b :: s == a + sub + b
    decreases |s|
  {
    if s[..|sub|] == sub {
      assert s == [] + sub + s[|sub|..];
    } else {
      ContainsIsInfix(s[1..], sub);
      var a, b :| s[1..] == a + sub + b;
      assert s == [s[0]] + a + sub + b;
    }
  }

  const AlreadyExistsText: string := "already exists"

  /** The exception a creation raises when its target is there already. */
  predicate AlreadyExists(e: Error) {
    e.RuntimeError? && Contains(e.message, AlreadyExistsText)
  }

  /** `try: <create> except r.RqlRuntimeError as rre: if 'already exists'
      not in rre.message: raise`. */
  function Tolerate(created: Outcome): (o: Outcome)
    ensures o.Pass? <==> created.Pass? || AlreadyExists(created.error)
    ensures o.Fail? ==> o == created
  {
    if created.Fail? && !AlreadyExists(created.error) then created else Pass
  }

  /** Any runtime error whose message mentions "already exists" is swallowed,
      whatever surrounds the phrase (the server's own messages read
      "Table `db.name` already exists." and "Database `db` already exists."). */
  lemma AlreadyExistsTolerated(before: string, after: string)
    ensures Tolerate(Fail(RuntimeError(before + AlreadyExistsText + after))) == Pass
  {
    ContainsInfix(before, AlreadyExistsText, after);
  }

  /** A runtime error whose message does not hold the phrase anywhere
      propagates unchanged. */
  lemma OtherRuntimeErrorsPropagate(message: string)
    requires forall a, b :: message != a + AlreadyExistsText + b
    ensures Tolerate(Fail(RuntimeError(message))) == Fail(RuntimeError(message))
  {
    if Contains(message, AlreadyExistsText) {
      ContainsIsInfix(message, AlreadyExistsText);
    }
  }

  /** Only runtime errors are caught: a driver error or a plain exception
      propagates even when its message mentions "already exists". */
  lemma OnlyRuntimeErrorsTolerated(e: Error)
    requires !e.RuntimeError?
    ensures Tolerate(Fail(e)) == Fail(e)
  {
  }
}
