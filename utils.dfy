/** The helpers of the form hook: shaping a validation error into a flat
    field-to-message map, and three small predicates over maps and sets. */
module FormalUtils {
  import opened JsValues

  /** One entry of a validation error's `inner` list. */
  datatype InnerError = InnerError(path: string, message: string)

  /** Whatever the validation step threw. `ErrorObject.inner` is `None` when
      the object has no own `inner` property; `message` is `""` when the
      object's message is missing or empty (both are falsy). */
  datatype Thrown =
    | NotAnObject
    | NullValue
    | ErrorObject(inner: Option<seq<InnerError>>, path: Option<string>, message: string)

  /** The single-field branch: a truthy field name, the error's own path is
      that field, and the error carries a message. */
  predicate SingleField(e: Thrown, field: Option<string>)
  {
    e.ErrorObject? && field.Some? && field.value != "" && e.path == field && e.message != ""
  }

  /** The field names the entries of `inner` report on. */
  function PathsOf(inner: seq<InnerError>): set<string>
  {
    set i | 0 <= i < |inner| :: inner[i].path
  }

  /** The first non-empty message reported for `p`, or `""` if there is none. */
  function FirstMessage(inner: seq<InnerError>, p: string): string
  {
    if inner == [] then ""
    else if inner[0].path == p && inner[0].message != "" then inner[0].message
    else FirstMessage(inner[1..], p)
  }

  /** The intended result of merging `inner`: every reported path, with the
      first non-empty message reported for it. */
  function Merged(inner: seq<InnerError>): Errors
  {
    map p | p in PathsOf(inner) :: FirstMessage(inner, p)
  }

  /** The intended result of `formatYupErrors(e, field)`. */
  function FormattedErrors(e: Thrown, field: Option<string>): Errors
  {
    if e.ErrorObject? && e.inner.Some? then
      if SingleField(e, field) then map[field.value := e.message] else Merged(e.inner.value)
    else map[]
  }

  /** `formatYupErrors`: builds the errors object entry by entry, never
      overwriting a message already recorded for a path. */
  method FormatYupErrors(e: Thrown, field: Option<string>) returns (errors: Errors)
    ensures errors == FormattedErrors(e, field)
  {
    errors := map[];
    if e.ErrorObject? && e.inner.Some? {
      if SingleField(e, field) {
        errors := errors[field.value := e.message];
      } else {
        var inner := e.inner.value;
        var i := 0;
        while i < |inner|
          invariant 0 <= i <= |inner|
          invariant errors == Merged(inner[..i])
        {
          var err := inner[i];
          MergedAppend(inner[..i], err);
          if !(err.path in errors && errors[err.path] != "") {
            errors := errors[err.path := err.message];
          }
          assert inner[..i + 1] == inner[..i] + [err];
          i := i + 1;
        }
        assert inner[..i] == inner;
      }
    }
  }

  lemma {:induction false} PathsOfAppend(s: seq<InnerError>, x: InnerError)
    ensures PathsOf(s + [x]) == PathsOf(s) + {x.path}
  {
    var t := s + [x];
    forall p | p in PathsOf(t) ensures p in PathsOf(s) + {x.path} {
      var i :| 0 <= i < |t| && t[i].path == p;
      if i < |s| { assert s[i] == t[i]; }
    }
    forall p | p in PathsOf(s) ensures p in PathsOf(t) {
      var i :| 0 <= i < |s| && s[i].path == p;
      assert t[i] == s[i];
    }
    assert t[|s|] == x;
  }

  /** A path no entry reports on has no message. */
  lemma {:induction false} FirstMessageAbsent(s: seq<InnerError>, p: string)
    requires p !in PathsOf(s)
    ensures FirstMessage(s, p) == ""
  {
    if s != [] {
      assert s[0].path in PathsOf(s);
      forall q | q in PathsOf(s[1..]) ensures q in PathsOf(s) {
        var i :| 0 <= i < |s[1..]| && s[1..][i].path == q;
        assert s[i + 1].path == q;
      }
      FirstMessageAbsent(s[1..], p);
    }
  }

  /** A non-empty message always belongs to an entry for that path. */
  lemma {:induction false} FirstMessageFound(s: seq<InnerError>, p: string)
    requires FirstMessage(s, p) != ""
    ensures exists i :: 0 <= i < |s| && s[i].path == p && s[i].message == FirstMessage(s, p)
  {
    if !(s[0].path == p && s[0].message != "") {
      FirstMessageFound(s[1..], p);
      var i :| 0 <= i < |s[1..]| && s[1..][i].path == p && s[1..][i].message == FirstMessage(s[1..], p);
      assert s[i + 1] == s[1..][i];
    }
  }

  lemma {:induction false} FirstMessageAppend(s: seq<InnerError>, x: InnerError, p: string)
    ensures FirstMessage(s + [x], p)
         == if FirstMessage(s, p) != "" || x.path != p then FirstMessage(s, p) else x.message
  {
    if s == [] {
      assert s + [x] == [x];
      assert [x][1..] == [];
    } else {
      assert (s + [x])[0] == s[0];
      assert (s + [x])[1..] == s[1..] + [x];
      FirstMessageAppend(s[1..], x, p);
    }
  }

  /** One step of the merge loop: an entry is recorded unless its path
      already holds a non-empty message. */
  lemma {:induction false} MergedAppend(s: seq<InnerError>, x: InnerError)
    ensures Merged(s + [x])
         == if x.path in Merged(s) && Merged(s)[x.path] != "" then Merged(s)
            else Merged(s)[x.path := x.message]
  {
    var m := Merged(s + [x]);
    var r := if x.path in Merged(s) && Merged(s)[x.path] != "" then Merged(s)
             else Merged(s)[x.path := x.message];
    PathsOfAppend(s, x);
    assert m.Keys == r.Keys;
    forall p | p in m ensures m[p] == r[p] {
      FirstMessageAppend(s, x, p);
      if p == x.path && p !in PathsOf(s) {
        FirstMessageAbsent(s, p);
      }
    }
  }

  /** Later entries never overwrite a message already recorded: whatever
      follows `s`, a path with a non-empty message keeps it. */
  lemma {:induction false} LaterEntriesNeverOverwrite(s: seq<InnerError>, t: seq<InnerError>, p: string)
    requires p in Merged(s) && Merged(s)[p] != ""
    ensures p in Merged(s + t) && Merged(s + t)[p] == Merged(s)[p]
  {
    if t == [] {
      assert s + t == s;
    } else {
      var u := t[..|t| - 1];
      var x := t[|t| - 1];
      LaterEntriesNeverOverwrite(s, u, p);
      assert s + t == (s + u) + [x];
      MergedAppend(s + u, x);
    }
  }

  /** The first non-empty message for a path wins. */
  lemma {:induction false} FirstNonEmptyWins(inner: seq<InnerError>, j: nat)
    requires j < |inner| && inner[j].message != ""
    requires forall k :: 0 <= k < j && inner[k].path == inner[j].path ==> inner[k].message == ""
    ensures inner[j].path in Merged(inner) && Merged(inner)[inner[j].path] == inner[j].message
  {
    assert inner[j].path in PathsOf(inner);
    FirstMessageAt(inner, j);
  }

  lemma {:induction false} FirstMessageAt(inner: seq<InnerError>, j: nat)
    requires j < |inner| && inner[j].message != ""
    requires forall k :: 0 <= k < j && inner[k].path == inner[j].path ==> inner[k].message == ""
    ensures FirstMessage(inner, inner[j].path) == inner[j].message
  {
    if j > 0 {
      FirstMessageAt(inner[1..], j - 1);
    }
  }

  /** Outside the single-field branch, the keys are exactly the reported
      paths and every message is one reported for its path (or `""` when
      all of them were empty). */
  lemma FormattedMergesInner(e: Thrown, field: Option<string>)
    requires e.ErrorObject? && e.inner.Some? && !SingleField(e, field)
    ensures var errors := FormattedErrors(e, field);
      && errors.Keys == PathsOf(e.inner.value)
      && forall p :: p in errors ==>
           errors[p] == "" ||
           exists i :: 0 <= i < |e.inner.value| && e.inner.value[i].path == p && e.inner.value[i].message == errors[p]
  {
    var inner := e.inner.value;
    forall p | p in Merged(inner) && Merged(inner)[p] != ""
      ensures exists i :: 0 <= i < |inner| && inner[i].path == p && inner[i].message == Merged(inner)[p]
    {
      FirstMessageFound(inner, p);
    }
  }

  /** The single-field branch ignores `inner` altogether. */
  lemma SingleFieldIgnoresInner(e: Thrown, field: Option<string>)
    requires e.ErrorObject? && e.inner.Some? && SingleField(e, field)
    ensures FormattedErrors(e, field) == map[field.value := e.message]
  {
  }

  /** An empty `inner` gives no errors outside the single-field branch,
      also when a field is named but the error has no message. */
  lemma EmptyInnerGivesNoErrors(e: Thrown, field: Option<string>)
    requires e.ErrorObject? && e.inner == Some([]) && !SingleField(e, field)
    ensures FormattedErrors(e, field) == map[]
  {
    assert PathsOf([]) == {};
  }

  /** Anything that is not an object with an own `inner` gives no errors
      (the corrected behaviour for `null`, see `NullErrorThrows`). */
  lemma NonErrorsGiveNoErrors(e: Thrown, field: Option<string>)
    requires !(e.ErrorObject? && e.inner.Some?)
    ensures FormattedErrors(e, field) == map[]
  {
  }

  // ---------------------------------------------------------------------
  // `formatYupErrors` exactly as written, with JavaScript's object
  // semantics: `typeof null` is "object" and `null.hasOwnProperty` throws,
  // `!errors[path]` also reads properties inherited from `Object.prototype`,
  // and assigning a string to `errors['__proto__']` is ignored.

  /** The merge loop as written: an inherited property name reads as a
      truthy value, so an entry for it is never recorded. Everything else is
      the intended merge. */
  function MergeAsWritten(inner: seq<InnerError>): (errors: Errors)
    ensures errors == Merged(inner) - ObjectPrototypeNames
    decreases |inner|
  {
    if inner == [] then
      assert PathsOf(inner) == {};
      map[]
    else
      var s := inner[..|inner| - 1];
      var err := inner[|inner| - 1];
      var errors := MergeAsWritten(s);
      assert s + [err] == inner;
      MergeStepRemoving(s, err, ObjectPrototypeNames, errors);
      if err.path in ObjectPrototypeNames || (err.path in errors && errors[err.path] != "") then errors
      else errors[err.path := err.message]
  }

  /** One step of the merge loop as written keeps the result equal to the
      intended merge without the names in `names`. */
  lemma MergeStepRemoving(s: seq<InnerError>, err: InnerError, names: set<string>, errors: Errors)
    requires errors == Merged(s) - names
    ensures (if err.path in names || (err.path in errors && errors[err.path] != "") then errors
             else errors[err.path := err.message])
         == Merged(s + [err]) - names
  {
    MergedAppend(s, err);
  }

  /** `formatYupErrors` as written; `None` is the `TypeError` it throws.
      Where it returns, it only ever drops entries of the intended result. */
  function FormatAsWritten(e: Thrown, field: Option<string>): (r: Option<Errors>)
    ensures r.None? <==> e.NullValue?
    ensures r.Some? ==> r.value.Keys <= FormattedErrors(e, field).Keys
    ensures r.Some? ==> forall p :: p in r.value ==> r.value[p] == FormattedErrors(e, field)[p]
  {
    match e
    case NotAnObject => Some(map[])
    case NullValue => None
    case ErrorObject(inner, _, message) =>
      if inner.None? then Some(map[])
      else if SingleField(e, field) then
        if field.value == "__proto__" then Some(map[]) else Some(map[field.value := message])
      else Some(MergeAsWritten(inner.value))
  }

  /** Away from inherited property names the code as written and the
      intended merge agree. */
  lemma {:induction false} MergeAsWrittenAgrees(inner: seq<InnerError>)
    requires forall i :: 0 <= i < |inner| ==> inner[i].path !in ObjectPrototypeNames
    ensures MergeAsWritten(inner) == Merged(inner)
  {
    var names := ObjectPrototypeNames;
    PathsAvoid(inner, names);
    var m := Merged(inner);
    assert MergeAsWritten(inner) == m - names;
    RemoveDisjoint(m, names);
  }

  lemma PathsAvoid(inner: seq<InnerError>, names: set<string>)
    requires forall i :: 0 <= i < |inner| ==> inner[i].path !in names
    ensures PathsOf(inner) !! names
  {
    forall p | p in PathsOf(inner) ensures p !in names {
      var i :| 0 <= i < |inner| && inner[i].path == p;
    }
  }

  lemma RemoveDisjoint(m: Errors, names: set<string>)
    requires m.Keys !! names
    ensures m - names == m
  {
    assert (m - names).Keys == m.Keys;
  }

  /** An error reported on a field named `constructor` is lost. */
  lemma InheritedPathIsDropped()
    ensures var e := ErrorObject(Some([InnerError("constructor", "required")]), None, "1 error");
      && FormatAsWritten(e, None) == Some(map[])
      && FormattedErrors(e, None) == map["constructor" := "required"]
  {
    var inner := [InnerError("constructor", "required")];
    assert inner[0].path == "constructor";
    assert PathsOf(inner) == {"constructor"};
  }

  /** A single-field error on a field named `__proto__` is lost. */
  lemma ProtoFieldIsDropped(inner: seq<InnerError>)
    ensures var e := ErrorObject(Some(inner), Some("__proto__"), "required");
      && FormatAsWritten(e, Some("__proto__")) == Some(map[])
      && FormattedErrors(e, Some("__proto__")) == map["__proto__" := "required"]
  {
  }

  /** `formatYupErrors(null)` throws, where `undefined` gives `{}`. */
  lemma NullErrorThrows(field: Option<string>)
    ensures FormatAsWritten(NullValue, field) == None
    ensures FormatAsWritten(NotAnObject, field) == Some(map[])
    ensures FormattedErrors(NullValue, field) == map[]
  {
  }

  // ---------------------------------------------------------------------
  // Predicates over maps and sets.

  /** `objectIsEmpty`: the object owns no key. */
  function ObjectIsEmpty(obj: Errors): (empty: bool)
    ensures empty <==> obj == map[]
  {
    obj.Keys == {}
  }

  /** `objectIsEmpty` as written: `obj.hasOwnProperty(key)` calls whatever
      `obj` holds under `hasOwnProperty`, so an object owning a (string)
      property of that name throws a `TypeError` (`None`). */
  function ObjectIsEmptyAsWritten(obj: Errors): (r: Option<bool>)
    ensures r.None? <==> "hasOwnProperty" in obj
    ensures r.Some? ==> r.value == ObjectIsEmpty(obj)
  {
    if obj.Keys == {} then Some(true)
    else if "hasOwnProperty" in obj then None
    else Some(false)
  }

  /** An error recorded on a field named `hasOwnProperty` makes the check throw. */
  lemma OwnHasOwnPropertyThrows()
    ensures ObjectIsEmptyAsWritten(map["hasOwnProperty" := "required"]) == None
    ensures !ObjectIsEmpty(map["hasOwnProperty" := "required"])
  {
  }

  /** `equalSets`: same size, and every element of the first is in the second. */
  function EqualSets(set1: set<string>, set2: set<string>): (equal: bool)
    ensures equal <==> set1 == set2
  {
    if |set1| != |set2| then false
    else if set1 <= set2 then SubsetOfSameSize(set1, set2); true
    else false
  }

  /** A subset as large as its superset is the whole superset. */
  lemma {:induction false} SubsetOfSameSize(a: set<string>, b: set<string>)
    requires a <= b && |a| == |b|
    ensures a == b
  {
    if a != b {
      assert !(b <= a);
      var x :| x in b && x !in a;
      SubsetSize(a, b - {x});
    }
  }

  lemma {:induction false} SubsetSize(a: set<string>, b: set<string>)
    requires a <= b
    ensures |a| <= |b|
    decreases |a|
  {
    if a != {} {
      var x :| x in a;
      SubsetSize(a - {x}, b - {x});
    }
  }

  lemma EqualSetsSymmetric(set1: set<string>, set2: set<string>)
    ensures EqualSets(set1, set2) == EqualSets(set2, set1)
  {
  }

  /** The value a required field must not hold: `undefined` or `''`. */
  predicate IsBlank(v: Value)
  {
    v == Undefined || v == Str("")
  }

  /** `checkRequired`: no required schema field is blank. `fields` is `None`
      for a schema without a `fields` property. */
  function CheckRequired(fields: Option<map<string, bool>>, values: Values): (ok: bool)
    ensures ok <==> (fields.None? ||
      forall f :: f in fields.value && fields.value[f] ==> f in values && !IsBlank(values[f]))
  {
    fields.None? || forall f | f in fields.value :: !(fields.value[f] && IsBlank(Get(values, f)))
  }

  /** `checkRequired` as written: `values[field]` of a missing field whose
      name `Object.prototype` supplies is an inherited member, neither
      `undefined` nor `''`. It passes everything the intended check passes,
      and more only through such names. */
  function CheckRequiredAsWritten(fields: Option<map<string, bool>>, values: Values): (ok: bool)
    ensures CheckRequired(fields, values) ==> ok
    ensures ok && !CheckRequired(fields, values) ==>
      exists f :: f in fields.value && fields.value[f] && f in ObjectPrototypeNames && f !in values
  {
    fields.None? || forall f | f in fields.value :: !(fields.value[f] && IsBlank(ReadAsWritten(values, f)))
  }

  /** A required field named `constructor` that has no value passes. */
  lemma InheritedRequiredFieldPasses()
    ensures CheckRequiredAsWritten(Some(map["constructor" := true]), map[])
    ensures !CheckRequired(Some(map["constructor" := true]), map[])
  {
    assert Get(map[], "constructor") == Undefined;
  }

  /** `checkRequired` fails exactly when some required field is `undefined`
      (or missing) or the empty string. */
  lemma CheckRequiredFailsIff(fields: map<string, bool>, values: Values)
    ensures !CheckRequired(Some(fields), values)
        <==> exists f :: f in fields && fields[f] && (f !in values || values[f] == Undefined || values[f] == Str(""))
  {
  }

  /** A schema without `fields` requires nothing. */
  lemma CheckRequiredWithoutFields(values: Values)
    ensures CheckRequired(None, values)
  {
  }

  /** A required field holding `null` passes the check. */
  lemma CheckRequiredAcceptsNull()
    ensures CheckRequired(Some(map["name" := true, "age" := true]),
                          map["name" := Str("Peter Parker"), "age" := Null])
  {
  }
}
