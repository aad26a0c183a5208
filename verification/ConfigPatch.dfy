/** The config patch algebra (src/config-cli.ts): flattening a patch into leaf settings, reading and
  writing nested settings, structural comparison and the patch loop.

  A record is the list of its own fields in order. Parsed JSON has distinct keys in every record,
  which `Proper` states.
*/
module ConfigPatch {
  import opened Basics

  datatype Json =
    | Null
    | Bool(b: bool)
    | Num(n: real)
    | Str(s: string)
    | Arr(items: seq<Json>)
    | Obj(fields: seq<Field>)

  datatype Field = Field(key: string, value: Json)

  type Path = seq<string>

  datatype Setting = Setting(path: Path, value: Json)

  ghost predicate DistinctKeys(fields: seq<Field>) {
    forall i, j :: 0 <= i < j < |fields| ==> fields[i].key != fields[j].key
  }

  ghost predicate Proper(j: Json)
    decreases j
  {
    match j
    case Arr(items) => forall i :: 0 <= i < |items| ==> Proper(items[i])
    case Obj(fields) => DistinctKeys(fields) && forall i :: 0 <= i < |fields| ==> Proper(fields[i].value)
    case _ => true
  }

  // ---------------------------------------------------------------- one record

  function Lookup(fields: seq<Field>, key: string): Option<Json> {
    if fields == [] then None
    else if fields[0].key == key then Some(fields[0].value)
    else Lookup(fields[1..], key)
  }

  /** Assignment to a key: an existing field keeps its place, a new one goes last. */
  function Put(fields: seq<Field>, key: string, value: Json): seq<Field> {
    if fields == [] then [Field(key, value)]
    else if fields[0].key == key then [Field(key, value)] + fields[1..]
    else [fields[0]] + Put(fields[1..], key, value)
  }

  function Keys(fields: seq<Field>): set<string> { set f | f in fields :: f.key }

  /** The field names in order. */
  function Names(fields: seq<Field>): seq<string> {
    seq(|fields|, k requires 0 <= k < |fields| => fields[k].key)
  }

  /** A write keeps the order of the fields; a new field goes last. */
  lemma {:induction false} PutKeepsOrder(fields: seq<Field>, key: string, value: Json)
    ensures Names(Put(fields, key, value)) == Names(fields) + if key in Names(fields) then [] else [key]
  {
    if fields != [] {
      var rest := fields[1..];
      NamesOfCons(fields[0], rest);
      assert fields == [fields[0]] + rest;
      if fields[0].key == key {
        NamesOfCons(Field(key, value), rest);
      } else {
        PutKeepsOrder(rest, key, value);
        NamesOfCons(fields[0], Put(rest, key, value));
      }
    }
  }

  lemma NamesOfCons(f: Field, rest: seq<Field>)
    ensures Names([f] + rest) == [f.key] + Names(rest)
  {
  }

  lemma {:induction false} LookupAfterPut(fields: seq<Field>, key: string, value: Json, other: string)
    ensures Lookup(Put(fields, key, value), other) == if other == key then Some(value) else Lookup(fields, other)
  {
    if fields != [] && fields[0].key != key {
      LookupAfterPut(fields[1..], key, value, other);
    }
  }

  lemma {:induction false} LookupFinds(fields: seq<Field>, key: string)
    ensures Lookup(fields, key).Some? <==> key in Keys(fields)
    ensures Lookup(fields, key).Some? ==> Field(key, Lookup(fields, key).value) in fields
  {
    if fields != [] {
      LookupFinds(fields[1..], key);
      assert fields == [fields[0]] + fields[1..];
    }
  }

  lemma {:induction false} LookupField(fields: seq<Field>, i: nat)
    requires i < |fields| && DistinctKeys(fields)
    ensures Lookup(fields, fields[i].key) == Some(fields[i].value)
  {
    if i > 0 { LookupField(fields[1..], i - 1); }
  }

  // ---------------------------------------------------------------- nested reads and writes

  function GetNested(target: Option<Json>, path: Path): Option<Json>
    decreases |path|
  {
    if path == [] then target
    else if target.Some? && target.value.Obj? then GetNested(Lookup(target.value.fields, path[0]), path[1..])
    else None
  }

  function Get(fields: seq<Field>, path: Path): Option<Json> { GetNested(Some(Obj(fields)), path) }

  function SetNested(fields: seq<Field>, path: Path, value: Json): seq<Field>
    decreases |path|
  {
    if path == [] then fields
    else if |path| == 1 then Put(fields, path[0], value)
    else
      var existing := Lookup(fields, path[0]);
      var inner := if existing.Some? && existing.value.Obj? then existing.value.fields else [];
      Put(fields, path[0], Obj(SetNested(inner, path[1..], value)))
  }

  method GetNestedValue(target: Json, path: Path) returns (value: Option<Json>)
    ensures value == GetNested(Some(target), path)
  {
    var cursor: Option<Json> := Some(target);
    for i := 0 to |path|
      invariant GetNested(Some(target), path) == GetNested(cursor, path[i..])
    {
      if cursor.None? || !cursor.value.Obj? { return None; }
      cursor := Lookup(cursor.value.fields, path[i]);
    }
    return cursor;
  }

  lemma GetStep(fields: seq<Field>, path: Path)
    requires path != []
    ensures Get(fields, path) == GetNested(Lookup(fields, path[0]), path[1..])
    ensures |path| == 1 ==> Get(fields, path) == Lookup(fields, path[0])
    ensures |path| > 1 ==>
              var inner := Lookup(fields, path[0]);
              Get(fields, path) == if inner.Some? && inner.value.Obj? then Get(inner.value.fields, path[1..]) else None
  {
  }

  predicate Comparable(p: Path, q: Path) { p <= q || q <= p }

  lemma {:induction false} SetThenGet(fields: seq<Field>, path: Path, value: Json)
    requires path != []
    ensures Get(SetNested(fields, path, value), path) == Some(value)
    decreases |path|
  {
    GetStep(SetNested(fields, path, value), path);
    if |path| == 1 {
      LookupAfterPut(fields, path[0], value, path[0]);
    } else {
      var existing := Lookup(fields, path[0]);
      var inner := if existing.Some? && existing.value.Obj? then existing.value.fields else [];
      SetThenGet(inner, path[1..], value);
      LookupAfterPut(fields, path[0], Obj(SetNested(inner, path[1..], value)), path[0]);
    }
  }

  /** A write leaves every path that is neither above nor below it as it was. */
  lemma {:induction false} SetKeepsOthers(fields: seq<Field>, path: Path, value: Json, other: Path)
    requires !Comparable(path, other)
    ensures Get(SetNested(fields, path, value), other) == Get(fields, other)
    decreases |path|
  {
    GetStep(SetNested(fields, path, value), other);
    GetStep(fields, other);
    if |path| == 1 {
      assert other[0] != path[0];
      LookupAfterPut(fields, path[0], value, other[0]);
    } else {
      var existing := Lookup(fields, path[0]);
      var inner := if existing.Some? && existing.value.Obj? then existing.value.fields else [];
      LookupAfterPut(fields, path[0], Obj(SetNested(inner, path[1..], value)), other[0]);
      if other[0] == path[0] {
        TailsIncomparable(path, other);
        SetKeepsOthers(inner, path[1..], value, other[1..]);
        assert other[1..] != [];
        NothingInside(other[1..]);
      }
    }
  }

  lemma NothingInside(path: Path)
    requires path != []
    ensures Get([], path) == None
  {
    assert GetNested(None, path[1..]) == None;
  }

  lemma TailsIncomparable(p: Path, q: Path)
    requires p != [] && q != [] && p[0] == q[0] && !Comparable(p, q)
    ensures !Comparable(p[1..], q[1..])
  {
  }

  // ---------------------------------------------------------------- flattening

  function FlattenFields(fields: seq<Field>, prefix: Path): seq<Setting>
    decreases fields
  {
    if fields == [] then []
    else
      var here := prefix + [fields[0].key];
      (match fields[0].value
       case Obj(inner) => FlattenFields(inner, here)
       case leaf => [Setting(here, leaf)])
      + FlattenFields(fields[1..], prefix)
  }

  function FlattenPatch(value: Json): seq<Setting> {
    match value
    case Obj(fields) => FlattenFields(fields, [])
    case _ => []
  }

  lemma {:induction false} FlattenExtendsPrefix(fields: seq<Field>, prefix: Path)
    ensures forall e :: e in FlattenFields(fields, prefix) ==>
              |prefix| < |e.path| && prefix <= e.path && e.path[|prefix|] in Keys(fields)
    decreases fields
  {
    if fields != [] {
      FlattenExtendsPrefix(fields[1..], prefix);
      assert fields == [fields[0]] + fields[1..];
      var here := prefix + [fields[0].key];
      if fields[0].value.Obj? {
        var inner := fields[0].value.fields;
        FlattenExtendsPrefix(inner, here);
        forall e | e in FlattenFields(inner, here)
          ensures |prefix| < |e.path| && prefix <= e.path && e.path[|prefix|] == fields[0].key
        {
          assert here <= e.path && here[|prefix|] == fields[0].key;
        }
      }
    }
  }

  ghost predicate PrefixFree(settings: seq<Setting>) {
    forall i, j :: 0 <= i < j < |settings| ==> !Comparable(settings[i].path, settings[j].path)
  }

  lemma PrefixFreeConcat(a: seq<Setting>, b: seq<Setting>, at: nat)
    requires PrefixFree(a) && PrefixFree(b)
    requires forall e :: e in a ==> at < |e.path|
    requires forall e :: e in b ==> at < |e.path|
    requires forall e, f :: e in a && f in b ==> e.path[at] != f.path[at]
    ensures PrefixFree(a + b)
  {
  }

  /** The leaf settings of a patch never lie above or below one another. */
  lemma {:induction false} FlattenIsPrefixFree(fields: seq<Field>, prefix: Path)
    requires Proper(Obj(fields))
    ensures PrefixFree(FlattenFields(fields, prefix))
    decreases fields
  {
    if fields != [] {
      var rest := fields[1..];
      assert Proper(Obj(rest)) by { ProperTail(fields); }
      FlattenIsPrefixFree(rest, prefix);
      FlattenExtendsPrefix(rest, prefix);
      var here := prefix + [fields[0].key];
      var head := match fields[0].value case Obj(inner) => FlattenFields(inner, here) case leaf => [Setting(here, leaf)];
      if fields[0].value.Obj? {
        FlattenIsPrefixFree(fields[0].value.fields, here);
        FlattenExtendsPrefix(fields[0].value.fields, here);
      }
      forall e | e in head ensures |prefix| < |e.path| && e.path[|prefix|] == fields[0].key {
        assert here <= e.path && here[|prefix|] == fields[0].key;
      }
      assert fields[0].key !in Keys(rest);
      PrefixFreeConcat(head, FlattenFields(rest, prefix), |prefix|);
    }
  }

  lemma ProperTail(fields: seq<Field>)
    requires fields != [] && Proper(Obj(fields))
    ensures Proper(fields[0].value) && Proper(Obj(fields[1..]))
  {
  }

  /** The leaf settings are exactly the non-record values the patch holds, with their paths. */
  lemma {:induction false} FlattenIsExact(fields: seq<Field>, prefix: Path, path: Path, value: Json)
    requires Proper(Obj(fields))
    ensures Setting(prefix + path, value) in FlattenFields(fields, prefix) <==>
            path != [] && !value.Obj? && Get(fields, path) == Some(value)
    decreases fields
  {
    if path == [] {
      FlattenExtendsPrefix(fields, prefix);
    } else if fields == [] {
      NothingInside(path);
    } else {
      ProperTail(fields);
      FlattenIsExact(fields[1..], prefix, path, value);
      FlattenExtendsPrefix(fields[1..], prefix);
      var here := prefix + [fields[0].key];
      assert (prefix + path)[|prefix|] == path[0];
      GetStep(fields, path);
      GetStep(fields[1..], path);
      if path[0] == fields[0].key {
        assert fields[0].key !in Keys(fields[1..]);
        assert prefix + path == here + path[1..];
        if fields[0].value.Obj? {
          FlattenIsExact(fields[0].value.fields, here, path[1..], value);
        } else {
          assert |path| == 1 ==> prefix + path == here;
          assert |path| > 1 ==> |prefix + path| != |here|;
          assert Setting(prefix + path, value) !in FlattenFields(fields[1..], prefix);
        }
      } else {
        HeadMisses(fields[0], prefix, path, value);
      }
    }
  }

  lemma HeadMisses(f: Field, prefix: Path, path: Path, value: Json)
    requires path != [] && path[0] != f.key
    ensures var here := prefix + [f.key];
            Setting(prefix + path, value)
            !in (match f.value case Obj(inner) => FlattenFields(inner, here) case leaf => [Setting(here, leaf)])
  {
    var here := prefix + [f.key];
    assert (prefix + path)[|prefix|] == path[0] && here[|prefix|] == f.key;
    if f.value.Obj? { FlattenExtendsPrefix(f.value.fields, here); }
  }

  // ---------------------------------------------------------------- structural comparison

  predicate DeepEqual(left: Json, right: Json)
    decreases left
  {
    match left
    case Arr(a) =>
      right.Arr? && |a| == |right.items| && forall i :: 0 <= i < |a| ==> DeepEqual(a[i], right.items[i])
    case Obj(f) =>
      right.Obj? && Keys(f) == Keys(right.fields)
      && forall i :: 0 <= i < |f| ==>
           var other := Lookup(right.fields, f[i].key);
           other.Some? && DeepEqual(f[i].value, other.value)
    case _ => left == right
  }

  /** JSON as unordered trees: what a value means once field order is forgotten. */
  datatype Tree = Leaf(leaf: Json) | List(items: seq<Tree>) | Record(fields: map<string, Tree>)

  function Meaning(j: Json): Tree
    decreases j
  {
    match j
    case Arr(items) => List(seq(|items|, i requires 0 <= i < |items| => Meaning(items[i])))
    case Obj(fields) => Record(Meanings(fields))
    case _ => Leaf(j)
  }

  function Meanings(fields: seq<Field>): map<string, Tree>
    decreases fields
  {
    if fields == [] then map[] else Meanings(fields[1..])[fields[0].key := Meaning(fields[0].value)]
  }

  lemma {:induction false} MeaningsLookup(fields: seq<Field>, key: string)
    ensures key in Meanings(fields) <==> Lookup(fields, key).Some?
    ensures Lookup(fields, key).Some? ==> Meanings(fields)[key] == Meaning(Lookup(fields, key).value)
  {
    if fields != [] { MeaningsLookup(fields[1..], key); }
  }

  /** The comparison decides equality of meaning. */
  lemma {:induction false} DeepEqualIsSameMeaning(left: Json, right: Json)
    requires Proper(left) && Proper(right)
    ensures DeepEqual(left, right) <==> Meaning(left) == Meaning(right)
    decreases left
  {
    match left
    case Arr(a) =>
      assert right.Arr? ==> |Meaning(right).items| == |right.items|;
      if right.Arr? && |a| == |right.items| {
        var b := right.items;
        forall i | 0 <= i < |a| ensures DeepEqual(a[i], b[i]) <==> Meaning(a[i]) == Meaning(b[i]) {
          DeepEqualIsSameMeaning(a[i], b[i]);
        }
        SameListMeaning(a, b);
      }
    case Obj(f) =>
      if right.Obj? {
        var g := right.fields;
        forall i | 0 <= i < |f| && Lookup(g, f[i].key).Some?
          ensures DeepEqual(f[i].value, Lookup(g, f[i].key).value)
                  <==> Meaning(f[i].value) == Meaning(Lookup(g, f[i].key).value)
        {
          LookupFinds(g, f[i].key);
          DeepEqualIsSameMeaning(f[i].value, Lookup(g, f[i].key).value);
        }
        SameRecordMeaning(f, g);
      }
    case _ =>
  }

  lemma SameListMeaning(a: seq<Json>, b: seq<Json>)
    requires |a| == |b|
    ensures Meaning(Arr(a)) == Meaning(Arr(b)) <==> forall i :: 0 <= i < |a| ==> Meaning(a[i]) == Meaning(b[i])
  {
    var x, y := Meaning(Arr(a)).items, Meaning(Arr(b)).items;
    assert forall i :: 0 <= i < |a| ==> x[i] == Meaning(a[i]) && y[i] == Meaning(b[i]);
  }

  lemma MeaningsKeys(fields: seq<Field>)
    ensures Meanings(fields).Keys == Keys(fields)
  {
  }

  lemma MeaningsAt(f: seq<Field>, g: seq<Field>, i: nat)
    requires i < |f| && DistinctKeys(f) && Keys(f) == Keys(g)
    ensures var key := f[i].key;
      && Lookup(g, key).Some? && key in Meanings(f) && key in Meanings(g)
      && Meanings(f)[key] == Meaning(f[i].value) && Meanings(g)[key] == Meaning(Lookup(g, key).value)
  {
    var key := f[i].key;
    LookupField(f, i);
    MeaningsLookup(f, key);
    assert f[i] in f && key in Keys(f);
    LookupFinds(g, key);
    MeaningsLookup(g, key);
  }

  lemma SameRecordMeaning(f: seq<Field>, g: seq<Field>)
    requires DistinctKeys(f)
    ensures Meanings(f) == Meanings(g) <==>
            && Keys(f) == Keys(g)
            && forall i :: 0 <= i < |f| ==>
                 Lookup(g, f[i].key).Some? && Meaning(f[i].value) == Meaning(Lookup(g, f[i].key).value)
  {
    hide Meanings, Meaning, Lookup;
    MeaningsKeys(f);
    MeaningsKeys(g);
    if Keys(f) == Keys(g) {
      forall i | 0 <= i < |f|
        ensures var key := f[i].key;
          && Lookup(g, key).Some? && key in Meanings(f) && key in Meanings(g)
          && Meanings(f)[key] == Meaning(f[i].value) && Meanings(g)[key] == Meaning(Lookup(g, key).value)
      {
        MeaningsAt(f, g, i);
      }
      if forall i :: 0 <= i < |f| ==> Meaning(f[i].value) == Meaning(Lookup(g, f[i].key).value) {
        forall key | key in Meanings(f) ensures Meanings(f)[key] == Meanings(g)[key] {
          var i :| 0 <= i < |f| && f[i].key == key;
        }
        assert Meanings(f) == Meanings(g);
      }
    }
  }

  // ---------------------------------------------------------------- the patch loop

  datatype Applied = Applied(next: seq<Field>, changed: seq<Setting>, noop: seq<Path>)

  predicate AlreadySet(current: seq<Field>, s: Setting) {
    Get(current, s.path).Some? && DeepEqual(Get(current, s.path).value, s.value)
  }

  function Apply(current: seq<Field>, settings: seq<Setting>): Applied {
    if settings == [] then Applied(current, [], [])
    else
      var done, s := Apply(current, settings[..|settings| - 1]), settings[|settings| - 1];
      if AlreadySet(current, s) then done.(noop := done.noop + [s.path])
      else Applied(SetNested(done.next, s.path, s.value), done.changed + [s], done.noop)
  }

  method ApplyPatch(current: seq<Field>, patch: Json) returns (result: Applied)
    ensures result == Apply(current, FlattenPatch(patch))
  {
    var flattened := FlattenPatch(patch);
    var next, changed, noop: seq<Path> := current, [], [];
    for i := 0 to |flattened|
      invariant Applied(next, changed, noop) == Apply(current, flattened[..i])
    {
      assert flattened[..i + 1][..i] == flattened[..i];
      var entry := flattened[i];
      var existing := GetNestedValue(Obj(current), entry.path);
      if existing.Some? && DeepEqual(existing.value, entry.value) {
        noop := noop + [entry.path];
        continue;
      }
      changed := changed + [entry];
      next := SetNested(next, entry.path, entry.value);
    }
    assert flattened[..|flattened|] == flattened;
    result := Applied(next, changed, noop);
  }

  ghost predicate Usable(settings: seq<Setting>) {
    && PrefixFree(settings)
    && forall i :: 0 <= i < |settings| ==> settings[i].path != [] && Proper(settings[i].value)
  }

  lemma {:induction false} ApplyKeepsOthers(current: seq<Field>, settings: seq<Setting>, other: Path)
    requires forall s :: s in settings ==> !Comparable(s.path, other)
    ensures Get(Apply(current, settings).next, other) == Get(current, other)
  {
    if settings != [] {
      var init, s := settings[..|settings| - 1], settings[|settings| - 1];
      assert settings == init + [s];
      ApplyKeepsOthers(current, init, other);
      SetKeepsOthers(Apply(current, init).next, s.path, s.value, other);
    }
  }

  /** After the loop a changed setting reads exactly its patched value and a no-op setting reads
      the value it had, which equals the patched one. */
  lemma {:induction false} ApplySets(current: seq<Field>, settings: seq<Setting>, k: nat)
    requires Usable(settings) && k < |settings|
    ensures Get(Apply(current, settings).next, settings[k].path)
            == if AlreadySet(current, settings[k]) then Get(current, settings[k].path) else Some(settings[k].value)
  {
    var init, s := settings[..|settings| - 1], settings[|settings| - 1];
    assert settings == init + [s];
    if k < |init| {
      ApplySets(current, init, k);
      assert !Comparable(settings[k].path, s.path);
      SetKeepsOthers(Apply(current, init).next, s.path, s.value, settings[k].path);
    } else if AlreadySet(current, s) {
      forall t | t in init ensures !Comparable(t.path, s.path) {
        var i :| 0 <= i < |init| && init[i] == t;
        assert settings[i] == t;
      }
      ApplyKeepsOthers(current, init, s.path);
    } else {
      SetThenGet(Apply(current, init).next, s.path, s.value);
    }
  }

  lemma PatchIsUsable(patch: Json)
    requires Proper(patch)
    ensures Usable(FlattenPatch(patch))
  {
    if patch.Obj? {
      FlattenIsPrefixFree(patch.fields, []);
      var settings := FlattenPatch(patch);
      forall i | 0 <= i < |settings| ensures settings[i].path != [] && Proper(settings[i].value) {
        var s := settings[i];
        assert [] + s.path == s.path;
        FlattenIsExact(patch.fields, [], s.path, s.value);
        GetIsProper(Some(patch), s.path);
      }
    }
  }

  lemma {:induction false} GetIsProper(target: Option<Json>, path: Path)
    requires target.Some? ==> Proper(target.value)
    ensures GetNested(target, path).Some? ==> Proper(GetNested(target, path).value)
    decreases |path|
  {
    if path != [] && target.Some? && target.value.Obj? {
      LookupFinds(target.value.fields, path[0]);
      GetIsProper(Lookup(target.value.fields, path[0]), path[1..]);
    }
  }

  /** After a patch, every path the patch sets reads the patched value, up to field order. */
  lemma PatchedPathsRead(current: seq<Field>, patch: Json, path: Path, value: Json)
    requires Proper(Obj(current)) && Proper(patch) && patch.Obj?
    requires path != [] && !value.Obj? && Get(patch.fields, path) == Some(value)
    ensures var now := Get(Apply(current, FlattenPatch(patch)).next, path);
            now.Some? && Meaning(now.value) == Meaning(value)
  {
    var settings := FlattenPatch(patch);
    PatchIsUsable(patch);
    assert [] + path == path;
    FlattenIsExact(patch.fields, [], path, value);
    var k :| 0 <= k < |settings| && settings[k] == Setting(path, value);
    ApplySets(current, settings, k);
    if AlreadySet(current, settings[k]) {
      GetIsProper(Some(Obj(current)), path);
      GetIsProper(Some(patch), path);
      DeepEqualIsSameMeaning(Get(current, path).value, value);
    }
  }

  /** After a patch, every path that lies neither above nor below a patched one reads as before. */
  lemma UnpatchedPathsKeep(current: seq<Field>, patch: Json, other: Path)
    requires forall s :: s in FlattenPatch(patch) ==> !Comparable(s.path, other)
    ensures Get(Apply(current, FlattenPatch(patch)).next, other) == Get(current, other)
  {
    ApplyKeepsOthers(current, FlattenPatch(patch), other);
  }

  lemma {:induction false} DeepEqualReflexive(j: Json)
    requires Proper(j)
    ensures DeepEqual(j, j)
  {
    DeepEqualIsSameMeaning(j, j);
  }

  function Paths(settings: seq<Setting>): seq<Path> {
    seq(|settings|, k requires 0 <= k < |settings| => settings[k].path)
  }

  lemma {:induction false} AllNoop(current: seq<Field>, settings: seq<Setting>)
    requires forall s :: s in settings ==> AlreadySet(current, s)
    ensures Apply(current, settings) == Applied(current, [], Paths(settings))
  {
    if settings != [] {
      var init, s := settings[..|settings| - 1], settings[|settings| - 1];
      assert settings == init + [s];
      AllNoop(current, init);
      assert Paths(settings) == Paths(init) + [s.path];
    }
  }

  /** What a path reads, up to field order. */
  function MeaningAt(fields: seq<Field>, path: Path): Option<Tree> {
    match Get(fields, path)
    case None => None
    case Some(value) => Some(Meaning(value))
  }

  predicate Differs(current: seq<Field>, s: Setting) { MeaningAt(current, s.path) != Some(Meaning(s.value)) }

  /** The settings whose current value differs in meaning, or the others, in the order given. */
  function Where(current: seq<Field>, settings: seq<Setting>, differs: bool): seq<Setting> {
    if settings == [] then []
    else
      var s := settings[|settings| - 1];
      Where(current, settings[..|settings| - 1], differs) + if Differs(current, s) == differs then [s] else []
  }

  lemma AlreadySetIsSameMeaning(current: seq<Field>, s: Setting)
    requires Proper(Obj(current)) && Proper(s.value)
    ensures AlreadySet(current, s) <==> !Differs(current, s)
  {
    GetIsProper(Some(Obj(current)), s.path);
    if Get(current, s.path).Some? { DeepEqualIsSameMeaning(Get(current, s.path).value, s.value); }
  }

  /** The loop splits the settings in order: a setting is changed exactly when the current config has
      no value there, or one of another meaning. */
  lemma {:induction false} ApplySplits(current: seq<Field>, settings: seq<Setting>)
    requires Proper(Obj(current)) && forall i :: 0 <= i < |settings| ==> Proper(settings[i].value)
    ensures Apply(current, settings).changed == Where(current, settings, true)
    ensures Apply(current, settings).noop == Paths(Where(current, settings, false))
  {
    if settings != [] {
      hide AlreadySet, Differs;
      var init, s := settings[..|settings| - 1], settings[|settings| - 1];
      assert settings == init + [s];
      ApplySplits(current, init);
      AlreadySetIsSameMeaning(current, s);
      PathsJoin(Where(current, init, false), s);
      assert Where(current, init, true) + [] == Where(current, init, true);
      assert Where(current, init, false) + [] == Where(current, init, false);
    }
  }

  lemma PathsJoin(settings: seq<Setting>, s: Setting)
    ensures Paths(settings + [s]) == Paths(settings) + [s.path]
  {
  }

  lemma {:induction false} WhereMembers(current: seq<Field>, settings: seq<Setting>, differs: bool, s: Setting)
    ensures s in Where(current, settings, differs) <==> s in settings && Differs(current, s) == differs
  {
    if settings != [] {
      hide Differs;
      var init, last := settings[..|settings| - 1], settings[|settings| - 1];
      WhereMembers(current, init, differs, s);
      assert settings == init + [last];
    }
  }

  lemma {:induction false} WhereJoins(current: seq<Field>, a: seq<Setting>, b: seq<Setting>, differs: bool)
    ensures Where(current, a + b, differs) == Where(current, a, differs) + Where(current, b, differs)
    decreases |b|
  {
    if b == [] {
      assert a + b == a;
    } else {
      WhereJoins(current, a, b[..|b| - 1], differs);
      assert (a + b)[..|a + b| - 1] == a + b[..|b| - 1];
    }
  }

  /** The config is written, because something is listed as changed, exactly when some patched path
      reads differently afterwards; otherwise it is left as it was. */
  lemma ChangedMeansDifferent(current: seq<Field>, patch: Json)
    requires Proper(Obj(current)) && Proper(patch)
    ensures var settings := FlattenPatch(patch);
      var result := Apply(current, settings);
      && (result.changed != [] <==> exists s :: s in settings && MeaningAt(result.next, s.path) != MeaningAt(current, s.path))
      && (result.changed == [] ==> result.next == current)
  {
    var settings := FlattenPatch(patch);
    var result := Apply(current, settings);
    PatchIsUsable(patch);
    ApplySplits(current, settings);
    forall s | s in settings
      ensures s in result.changed <==> MeaningAt(result.next, s.path) != MeaningAt(current, s.path)
      ensures s in result.changed <==> !AlreadySet(current, s) {
      WhereMembers(current, settings, true, s);
      var k :| 0 <= k < |settings| && settings[k] == s;
      ApplySets(current, settings, k);
      AlreadySetIsSameMeaning(current, s);
    }
    if result.changed == [] {
      AllNoop(current, settings);
    } else {
      var s := result.changed[0];
      assert s in result.changed;
      WhereMembers(current, settings, true, s);
    }
  }

  /** Applying the same patch a second time changes nothing and reports only no-op paths. */
  lemma PatchIsIdempotent(current: seq<Field>, patch: Json)
    requires Proper(patch)
    ensures var settings := FlattenPatch(patch);
            var next := Apply(current, settings).next;
            Apply(next, settings) == Applied(next, [], Paths(settings))
  {
    var settings := FlattenPatch(patch);
    var next := Apply(current, settings).next;
    PatchIsUsable(patch);
    forall s | s in settings ensures AlreadySet(next, s) {
      var k :| 0 <= k < |settings| && settings[k] == s;
      ApplySets(current, settings, k);
      DeepEqualReflexive(s.value);
    }
    AllNoop(next, settings);
  }
}
