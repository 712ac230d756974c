/** Redacting and restoring secrets in JSON trees, src/utils/Redact.ts.

Which keys are sensitive is a parameter: every lemma holds for any choice, in particular for the source's regular
expression. An object is its list of entries, in enumeration order. */
module Redact {

  datatype Json =
    | Undefined
    | Null
    | Bool(b: bool)
    | Num(n: real)
    | Str(s: string)
    | Arr(items: seq<Json>)
    | Obj(fields: seq<Field>)

  datatype Field = Field(key: string, value: Json)

  type Keys = string -> bool

  const REDACTED := Str("[REDACTED]")

  predicate Truthy(v: Json) {
    match v
    case Undefined => false
    case Null => false
    case Bool(b) => b
    case Num(n) => n != 0.0
    case Str(s) => s != ""
    case Arr(_) => true
    case Obj(_) => true
  }

  /** `(v || {})[key]`, for an object's own entries. */
  function Get(v: Json, key: string): Json {
    if v.Obj? then Lookup(v.fields, key) else Undefined
  }

  function Lookup(fields: seq<Field>, key: string): Json {
    if fields == [] then Undefined else if fields[0].key == key then fields[0].value else Lookup(fields[1..], key)
  }

  // ---------------------------------------------------------------------------------------------
  // Specification
  // ---------------------------------------------------------------------------------------------

  function Redacted(sensitive: Keys, v: Json): Json
    decreases v, 1
  {
    match v
    case Arr(items) => Arr(RedactedItems(sensitive, items))
    case Obj(fields) => Obj(RedactedFields(sensitive, fields))
    case _ => v
  }

  function RedactedItems(sensitive: Keys, items: seq<Json>): seq<Json>
    decreases items, 0
  {
    if items == [] then [] else [Redacted(sensitive, items[0])] + RedactedItems(sensitive, items[1..])
  }

  function RedactedEntry(sensitive: Keys, f: Field): Json
    decreases f, 2
  {
    if sensitive(f.key) then (if Truthy(f.value) then REDACTED else f.value) else Redacted(sensitive, f.value)
  }

  function RedactedFields(sensitive: Keys, fields: seq<Field>): seq<Field>
    decreases fields, 0
  {
    if fields == [] then []
    else [Field(fields[0].key, RedactedEntry(sensitive, fields[0]))] + RedactedFields(sensitive, fields[1..])
  }

  function Restored(sensitive: Keys, current: Json, requested: Json): Json
    decreases requested, 1
  {
    match requested
    case Obj(fields) => Obj(RestoredFields(sensitive, current, fields))
    case _ => requested
  }

  function RestoredEntry(sensitive: Keys, current: Json, f: Field): Json
    decreases f, 2
  {
    if sensitive(f.key) && f.value == REDACTED then Get(current, f.key)
    else if f.value.Arr? || f.value.Obj? then Restored(sensitive, Get(current, f.key), f.value)
    else f.value
  }

  function RestoredFields(sensitive: Keys, current: Json, fields: seq<Field>): seq<Field>
    decreases fields, 0
  {
    if fields == [] then []
    else
      [Field(fields[0].key, RestoredEntry(sensitive, current, fields[0]))]
      + RestoredFields(sensitive, current, fields[1..])
  }

  // ---------------------------------------------------------------------------------------------
  // The two functions, with the source's loops
  // ---------------------------------------------------------------------------------------------

  method RedactSensitive(sensitive: Keys, value: Json) returns (r: Json)
    ensures r == Redacted(sensitive, value)
    decreases value
  {
    if value.Arr? {
      var items := [];
      for i := 0 to |value.items|
        invariant items + RedactedItems(sensitive, value.items[i..]) == RedactedItems(sensitive, value.items)
      {
        var item := RedactSensitive(sensitive, value.items[i]);
        assert value.items[i..][1..] == value.items[i + 1..];
        items := items + [item];
      }
      return Arr(items);
    }
    if !value.Obj? { return value; }
    var result := [];
    for i := 0 to |value.fields|
      invariant result + RedactedFields(sensitive, value.fields[i..]) == RedactedFields(sensitive, value.fields)
    {
      var Field(key, entry) := value.fields[i];
      var replaced: Json;
      if sensitive(key) {
        replaced := if Truthy(entry) then REDACTED else entry;
      } else {
        replaced := RedactSensitive(sensitive, entry);
      }
      assert value.fields[i..][1..] == value.fields[i + 1..];
      result := result + [Field(key, replaced)];
    }
    r := Obj(result);
  }

  lemma RestoreStep(sensitive: Keys, current: Json, fields: seq<Field>, i: nat, result: seq<Field>)
    requires i < |fields| == |result|
    ensures var next := result[i := Field(fields[i].key, RestoredEntry(sensitive, current, fields[i]))];
            (next[..i + 1] + RestoredFields(sensitive, current, fields[i + 1..])
             == result[..i] + RestoredFields(sensitive, current, fields[i..]))
  {
    assert fields[i..][1..] == fields[i + 1..];
  }

  method RestoreRedactedSecrets(sensitive: Keys, current: Json, requested: Json) returns (r: Json)
    ensures r == Restored(sensitive, current, requested)
    decreases requested
  {
    if !requested.Obj? { return requested; }
    var fields := requested.fields;
    var result := fields;
    for i := 0 to |fields|
      invariant |result| == |fields|
      invariant result[..i] + RestoredFields(sensitive, current, fields[i..])
             == RestoredFields(sensitive, current, fields)
    {
      var Field(key, value) := fields[i];
      var kept := value;
      if sensitive(key) && value == REDACTED {
        kept := Get(current, key);
      } else if value.Arr? || value.Obj? {
        kept := RestoreRedactedSecrets(sensitive, Get(current, key), value);
      }
      assert kept == RestoredEntry(sensitive, current, fields[i]);
      RestoreStep(sensitive, current, fields, i, result);
      result := result[i := Field(key, kept)];
    }
    assert result[..|fields|] == result;
    r := Obj(result);
  }

  // ---------------------------------------------------------------------------------------------
  // Round trip
  // ---------------------------------------------------------------------------------------------

  /** Objects have distinct keys, at every level. */
  ghost predicate WellFormed(v: Json)
    decreases v, 1
  {
    match v
    case Arr(items) => forall i :: 0 <= i < |items| ==> WellFormed(items[i])
    case Obj(fields) =>
      && (forall i, j :: 0 <= i < j < |fields| ==> fields[i].key != fields[j].key)
      && (forall i :: 0 <= i < |fields| ==> WellFormed(fields[i].value))
    case _ => true
  }

  /** No sensitive entry holds anything but a falsy value or the marker itself. */
  ghost predicate Clean(sensitive: Keys, v: Json)
    decreases v, 1
  {
    match v
    case Arr(items) => forall i :: 0 <= i < |items| ==> Clean(sensitive, items[i])
    case Obj(fields) => forall i :: 0 <= i < |fields| ==> CleanEntry(sensitive, fields[i])
    case _ => true
  }

  ghost predicate CleanEntry(sensitive: Keys, f: Field)
    decreases f, 2
  {
    if sensitive(f.key) then !Truthy(f.value) || f.value == REDACTED else Clean(sensitive, f.value)
  }

  /** Every array that is reached through insensitive keys is clean. */
  ghost predicate Restorable(sensitive: Keys, v: Json)
    decreases v, 1
  {
    match v
    case Arr(items) => Clean(sensitive, v)
    case Obj(fields) => forall i :: 0 <= i < |fields| ==> RestorableEntry(sensitive, fields[i])
    case _ => true
  }

  ghost predicate RestorableEntry(sensitive: Keys, f: Field)
    decreases f, 2
  {
    sensitive(f.key) || Restorable(sensitive, f.value)
  }

  /** Redaction leaves a tree alone exactly when it holds no secret. */
  lemma {:induction false} CleanIsUnchanged(sensitive: Keys, v: Json)
    ensures Redacted(sensitive, v) == v <==> Clean(sensitive, v)
    decreases v, 1
  {
    match v
    case Arr(items) => CleanItems(sensitive, items);
    case Obj(fields) => CleanFields(sensitive, fields);
    case _ =>
  }

  lemma {:induction false} CleanItems(sensitive: Keys, items: seq<Json>)
    ensures RedactedItems(sensitive, items) == items <==> forall i :: 0 <= i < |items| ==> Clean(sensitive, items[i])
    decreases items, 0
  {
    if items != [] {
      assert items == [items[0]] + items[1..];
      CleanIsUnchanged(sensitive, items[0]);
      CleanItems(sensitive, items[1..]);
      assert (forall i :: 0 <= i < |items| ==> Clean(sensitive, items[i]))
        <==> Clean(sensitive, items[0]) && forall i :: 0 <= i < |items[1..]| ==> Clean(sensitive, items[1..][i]) by {
        forall i | 1 <= i < |items| ensures items[i] == items[1..][i - 1] {}
      }
      var r := RedactedItems(sensitive, items);
      assert r[0] == Redacted(sensitive, items[0]) && r[1..] == RedactedItems(sensitive, items[1..]);
    }
  }

  lemma {:induction false} CleanFields(sensitive: Keys, fields: seq<Field>)
    ensures RedactedFields(sensitive, fields) == fields
       <==> forall i :: 0 <= i < |fields| ==> CleanEntry(sensitive, fields[i])
    decreases fields, 0
  {
    if fields != [] {
      assert fields == [fields[0]] + fields[1..];
      CleanIsUnchanged(sensitive, fields[0].value);
      CleanFields(sensitive, fields[1..]);
      assert (forall i :: 0 <= i < |fields| ==> CleanEntry(sensitive, fields[i]))
        <==> CleanEntry(sensitive, fields[0]) && forall i :: 0 <= i < |fields[1..]| ==>
            CleanEntry(sensitive, fields[1..][i]) by {
        forall i | 1 <= i < |fields| ensures fields[i] == fields[1..][i - 1] {}
      }
      var r := RedactedFields(sensitive, fields);
      assert r[0] == Field(fields[0].key, RedactedEntry(sensitive, fields[0]))
          && r[1..] == RedactedFields(sensitive, fields[1..]);
    }
  }

  /** Restoring a redacted tree from the original gives the original back exactly when every array in it that is
      not itself under a sensitive key is free of secrets. */
  lemma {:induction false} RoundTrip(sensitive: Keys, v: Json)
    requires WellFormed(v)
    ensures Restored(sensitive, v, Redacted(sensitive, v)) == v <==> Restorable(sensitive, v)
    decreases v, 1
  {
    match v
    case Arr(items) => CleanIsUnchanged(sensitive, v);
    case Obj(fields) =>
      forall i | 0 <= i < |fields| ensures Get(v, fields[i].key) == fields[i].value { LookupAt(fields, i); }
      RoundTripFields(sensitive, v, fields);
    case _ =>
  }

  lemma {:induction false} LookupAt(fields: seq<Field>, i: nat)
    requires i < |fields| && forall j, k :: 0 <= j < k < |fields| ==> fields[j].key != fields[k].key
    ensures Lookup(fields, fields[i].key) == fields[i].value
  {
    if i > 0 {
      LookupAt(fields[1..], i - 1);
    }
  }

  lemma {:induction false} RoundTripFields(sensitive: Keys, current: Json, fields: seq<Field>)
    requires forall i :: 0 <= i < |fields| ==>
               WellFormed(fields[i].value) && Get(current, fields[i].key) == fields[i].value
    ensures RestoredFields(sensitive, current, RedactedFields(sensitive, fields)) == fields
       <==> forall i :: 0 <= i < |fields| ==> RestorableEntry(sensitive, fields[i])
    decreases fields, 0
  {
    if fields != [] {
      var (f, rest) := (fields[0], fields[1..]);
      RoundTrip(sensitive, f.value);
      RoundTripFields(sensitive, current, rest);
      var red := RedactedFields(sensitive, fields);
      var e := RestoredEntry(sensitive, current, Field(f.key, RedactedEntry(sensitive, f)));
      assert red == [Field(f.key, RedactedEntry(sensitive, f))] + RedactedFields(sensitive, rest);
      assert red[1..] == RedactedFields(sensitive, rest);
      assert e == f.value <==> RestorableEntry(sensitive, f);
      var restored := RestoredFields(sensitive, current, red);
      assert restored == [restored[0]] + restored[1..] && fields == [fields[0]] + fields[1..];
      AllRestorable(sensitive, fields);
    }
  }

  lemma AllRestorable(sensitive: Keys, fields: seq<Field>)
    requires fields != []
    ensures (forall i :: 0 <= i < |fields| ==> RestorableEntry(sensitive, fields[i]))
       <==> RestorableEntry(sensitive, fields[0]) && forall i :: 0 <= i < |fields[1..]| ==>
           RestorableEntry(sensitive, fields[1..][i])
  {
    assert forall i :: 1 <= i < |fields| ==> fields[i] == fields[1..][i - 1];
  }

  // ---------------------------------------------------------------------------------------------
  // What redaction hides
  // ---------------------------------------------------------------------------------------------

  lemma {:induction false} RedactTwice(sensitive: Keys, v: Json)
    ensures Redacted(sensitive, Redacted(sensitive, v)) == Redacted(sensitive, v)
    decreases v, 1
  {
    match v
    case Arr(items) => RedactItemsTwice(sensitive, items);
    case Obj(fields) => RedactFieldsTwice(sensitive, fields);
    case _ =>
  }

  lemma {:induction false} RedactItemsTwice(sensitive: Keys, items: seq<Json>)
    ensures RedactedItems(sensitive, RedactedItems(sensitive, items)) == RedactedItems(sensitive, items)
    decreases items, 0
  {
    if items != [] {
      RedactTwice(sensitive, items[0]);
      RedactItemsTwice(sensitive, items[1..]);
      assert RedactedItems(sensitive, items)[1..] == RedactedItems(sensitive, items[1..]);
    }
  }

  lemma {:induction false} RedactFieldsTwice(sensitive: Keys, fields: seq<Field>)
    ensures RedactedFields(sensitive, RedactedFields(sensitive, fields)) == RedactedFields(sensitive, fields)
    decreases fields, 0
  {
    if fields != [] {
      RedactTwice(sensitive, fields[0].value);
      RedactFieldsTwice(sensitive, fields[1..]);
      assert RedactedFields(sensitive, fields)[1..] == RedactedFields(sensitive, fields[1..]);
    }
  }

  /** The same tree up to truthy values under sensitive keys. */
  ghost predicate Alike(sensitive: Keys, v: Json, w: Json)
    decreases v, 1
  {
    match (v, w)
    case (Arr(a), Arr(b)) => |a| == |b| && forall i :: 0 <= i < |a| ==> Alike(sensitive, a[i], b[i])
    case (Obj(a), Obj(b)) => |a| == |b| && forall i :: 0 <= i < |a| ==> AlikeEntry(sensitive, a[i], b[i])
    case _ => v == w
  }

  ghost predicate AlikeEntry(sensitive: Keys, f: Field, g: Field)
    decreases f, 2
  {
    f.key == g.key &&
    if sensitive(f.key) then (Truthy(f.value) && Truthy(g.value)) || f.value == g.value
    else Alike(sensitive, f.value, g.value)
  }

  /** A redacted tree shows everything about the original except truthy values under sensitive keys, and of those
      only that they are there. */
  lemma {:induction false} RedactionHidesExactlySecrets(sensitive: Keys, v: Json, w: Json)
    ensures Redacted(sensitive, v) == Redacted(sensitive, w) <==> Alike(sensitive, v, w)
    decreases v, 1
  {
    match (v, w)
    case (Arr(a), Arr(b)) => HidesItems(sensitive, a, b);
    case (Obj(a), Obj(b)) => HidesFields(sensitive, a, b);
    case _ =>
  }

  lemma {:induction false} HidesItems(sensitive: Keys, a: seq<Json>, b: seq<Json>)
    ensures RedactedItems(sensitive, a) == RedactedItems(sensitive, b)
       <==> |a| == |b| && forall i :: 0 <= i < |a| ==> Alike(sensitive, a[i], b[i])
    decreases a, 0
  {
    if a != [] && b != [] {
      RedactionHidesExactlySecrets(sensitive, a[0], b[0]);
      HidesItems(sensitive, a[1..], b[1..]);
      var (r, s) := (RedactedItems(sensitive, a), RedactedItems(sensitive, b));
      assert r[1..] == RedactedItems(sensitive, a[1..]) && s[1..] == RedactedItems(sensitive, b[1..]);
      assert r == [r[0]] + r[1..] && s == [s[0]] + s[1..];
      assert forall i :: 1 <= i < |a| ==> a[i] == a[1..][i - 1];
      assert forall i :: 1 <= i < |b| ==> b[i] == b[1..][i - 1];
    }
  }

  lemma {:induction false} HidesFields(sensitive: Keys, a: seq<Field>, b: seq<Field>)
    ensures RedactedFields(sensitive, a) == RedactedFields(sensitive, b)
       <==> |a| == |b| && forall i :: 0 <= i < |a| ==> AlikeEntry(sensitive, a[i], b[i])
    decreases a, 0
  {
    if a != [] && b != [] {
      RedactionHidesExactlySecrets(sensitive, a[0].value, b[0].value);
      HidesFields(sensitive, a[1..], b[1..]);
      var (r, s) := (RedactedFields(sensitive, a), RedactedFields(sensitive, b));
      assert r[1..] == RedactedFields(sensitive, a[1..]) && s[1..] == RedactedFields(sensitive, b[1..]);
      assert r == [r[0]] + r[1..] && s == [s[0]] + s[1..];
      assert forall i :: 1 <= i < |a| ==> a[i] == a[1..][i - 1];
      assert forall i :: 1 <= i < |b| ==> b[i] == b[1..][i - 1];
    }
  }

  // ---------------------------------------------------------------------------------------------
  // What restoring keeps
  // ---------------------------------------------------------------------------------------------

  function GetPath(v: Json, path: seq<string>): Json
    decreases |path|
  {
    if path == [] then v else GetPath(Get(v, path[0]), path[1..])
  }

  lemma {:induction false} RestoredLookup(sensitive: Keys, current: Json, fields: seq<Field>, key: string)
    ensures Lookup(RestoredFields(sensitive, current, fields), key)
         == if exists i :: 0 <= i < |fields| && fields[i].key == key
            then RestoredEntry(sensitive, current, Field(key, Lookup(fields, key))) else Undefined
  {
    if fields != [] {
      if fields[0].key == key {
        assert fields[0] == Field(key, Lookup(fields, key));
      } else {
        RestoredLookup(sensitive, current, fields[1..], key);
        assert forall i :: 1 <= i < |fields| ==> fields[i] == fields[1..][i - 1];
        assert RestoredFields(sensitive, current, fields)[1..] == RestoredFields(sensitive, current, fields[1..]);
      }
    }
  }

  lemma {:induction false} AbsentIsUndefined(fields: seq<Field>, key: string)
    requires !exists i :: 0 <= i < |fields| && fields[i].key == key
    ensures Lookup(fields, key) == Undefined
  {
    if fields != [] {
      assert forall i :: 0 <= i < |fields[1..]| ==> fields[1..][i] == fields[i + 1];
      AbsentIsUndefined(fields[1..], key);
    }
  }

  lemma RestoredGet(sensitive: Keys, current: Json, requested: Json, key: string)
    ensures Get(Restored(sensitive, current, requested), key)
         == RestoredEntry(sensitive, current, Field(key, Get(requested, key)))
  {
    if requested.Obj? {
      RestoredLookup(sensitive, current, requested.fields, key);
      if !exists i :: 0 <= i < |requested.fields| && requested.fields[i].key == key {
        AbsentIsUndefined(requested.fields, key);
      }
    }
  }

  /** Along every path of keys, restoring keeps what the edit asked for, except that the marker under a sensitive
      key gives way to the current value there. The path ends at a field of the edit that is no object. */
  lemma {:induction false} RestoringKeepsEdits(sensitive: Keys, current: Json, requested: Json, path: seq<string>)
    requires path != [] && !GetPath(requested, path).Obj? && GetPath(requested, path) != Undefined
    ensures GetPath(Restored(sensitive, current, requested), path)
         == if sensitive(path[|path| - 1]) && GetPath(requested, path) == REDACTED then GetPath(current, path)
            else GetPath(requested, path)
    decreases |path|
  {
    var (k, rest) := (path[0], path[1..]);
    RestoredGet(sensitive, current, requested, k);
    var (c, v) := (Get(current, k), Get(requested, k));
    if rest != [] {
      if !v.Obj? {
        NoPathBelowLeaf(v, rest);
      }
      RestoringKeepsEdits(sensitive, c, v, rest);
    }
  }

  lemma {:induction false} NoPathBelowLeaf(v: Json, path: seq<string>)
    requires path != [] && !v.Obj?
    ensures GetPath(v, path) == Undefined
    decreases |path|
  {
    if |path| > 1 {
      NoPathBelowLeaf(Undefined, path[1..]);
    }
  }
}
