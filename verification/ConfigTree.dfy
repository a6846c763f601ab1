/** Configuration trees, as values: setting one path (patroni/ctl.py) and applying a patch
    (patroni/utils.py). */
module ConfigTree {
  import opened Wrappers

  /** A scalar is whatever is neither missing nor a dictionary. */
  datatype Value = Null | Scalar(id: int) | Dict(entries: Tree)
  type Tree = map<string, Value>

  // ------------------------------------------------------------------ setting a path

  type Path = p: seq<string> | p != [] witness [""]

  const PARAMETERS: seq<string> := ["postgresql", "parameters"]

  function Join(parts: Path): string
    decreases |parts|
  {
    if |parts| == 1 then parts[0] else parts[0] + "." + Join(parts[1..])
  }

  /** `split(".")`. */
  function Split(text: string): Path
    decreases |text|
  {
    if text == "" then [""]
    else if text[0] == '.' then [""] + Split(text[1..])
    else
      var rest := Split(text[1..]);
      [[text[0]] + rest[0]] + rest[1..]
  }

  /** Joining what was split gives the text back. */
  lemma {:induction false} SplitJoins(text: string)
    ensures Join(Split(text)) == text
    decreases |text|
  {
    if text != "" {
      SplitJoins(text[1..]);
      var rest := Split(text[1..]);
      if text[0] == '.' {
        assert ([""] + rest)[1..] == rest;
        assert text == "" + "." + text[1..];
      } else {
        var parts: Path := [[text[0]] + rest[0]] + rest[1..];
        assert parts[1..] == rest[1..];
        assert text == [text[0]] + text[1..];
        if |rest| > 1 { assert Join(parts) == [text[0]] + rest[0] + "." + Join(rest[1..]); }
      }
    }
  }

  /** Splitting takes what comes before the first dot. */
  lemma {:induction false} SplitAtDot(first: string, rest: string)
    requires '.' !in first
    ensures Split(first + "." + rest) == [first] + Split(rest)
    decreases |first|
  {
    var text := first + "." + rest;
    if first == "" {
      assert text[1..] == rest;
    } else {
      SplitAtDot(first[1..], rest);
      assert text[1..] == first[1..] + "." + rest;
      assert [first[0]] + first[1..] == first;
    }
  }

  function Child(config: Tree, key: string): Tree {
    if key in config && config[key].Dict? then config[key].entries else map[]
  }

  function SetKey(config: Tree, key: string, value: Value): Tree {
    if value.Null? then config - {key} else config[key := value]
  }

  /** What becomes of a tree when `child` is put back under `key`. */
  function PutBack(config: Tree, key: string, child: Tree): Tree {
    if child == map[] then config - {key} else config[key := Dict(child)]
  }

  /** `set_path_value`. */
  function SetPathValue(config: Tree, path: Path, value: Value, prefix: seq<string>): Tree
    decreases |path|
  {
    if prefix == PARAMETERS then SetKey(config, Join(path), value)
    else if |path| == 1 then SetKey(config, path[0], value)
    else PutBack(config, path[0], SetPathValue(Child(config, path[0]), path[1..], value, prefix + [path[0]]))
  }

  function Lookup(config: Tree, path: Path): Option<Value>
    decreases |path|
  {
    if path[0] !in config then None
    else if |path| == 1 then Some(config[path[0]])
    else if config[path[0]].Dict? then Lookup(config[path[0]].entries, path[1..])
    else None
  }

  predicate Unrelated(p: Path, q: Path) { !(p <= q) && !(q <= p) }

  /** Where a dotted path leads: what follows `postgresql.parameters` is one key. */
  function Flattened(path: Path): Path {
    if |path| > 2 && path[..2] == PARAMETERS then PARAMETERS + [Join(path[2..])] else path
  }

  /** Setting a path without regard to parameter names. */
  function SetNested(config: Tree, path: Path, value: Value): Tree
    decreases |path|
  {
    if |path| == 1 then SetKey(config, path[0], value)
    else PutBack(config, path[0], SetNested(Child(config, path[0]), path[1..], value))
  }

  lemma {:induction false} BelowParameters(config: Tree, path: Path, value: Value, prefix: seq<string>)
    requires |prefix| > 2 || (|prefix| == 2 && prefix != PARAMETERS) || (|prefix| == 1 && prefix[0] != PARAMETERS[0])
    ensures SetPathValue(config, path, value, prefix) == SetNested(config, path, value)
    decreases |path|
  {
    if |path| > 1 { BelowParameters(Child(config, path[0]), path[1..], value, prefix + [path[0]]); }
  }

  lemma ThreeKeys(config: Tree, k0: string, k1: string, k2: string, value: Value)
    ensures var child := Child(config, k0);
      SetNested(config, [k0, k1] + [k2], value) ==
        PutBack(config, k0, PutBack(child, k1, SetKey(Child(child, k1), k2, value)))
  {
    var q: Path := [k0, k1] + [k2];
    var r: Path := [k1, k2];
    var child := Child(config, k0);
    assert q[1..] == r && r[1..] == [k2];
    assert SetNested(Child(child, k1), [k2], value) == SetKey(Child(child, k1), k2, value);
    assert SetNested(child, r, value) == PutBack(child, k1, SetNested(Child(child, k1), [k2], value));
  }

  /** `set_path_value` sets the flattened path. */
  lemma SetsFlattenedPath(config: Tree, path: Path, value: Value)
    ensures SetPathValue(config, path, value, []) == SetNested(config, Flattened(path), value)
  {
    if |path| > 1 {
      var child, rest := Child(config, path[0]), path[1..];
      assert [] + [path[0]] == [path[0]];
      if path[0] != PARAMETERS[0] {
        BelowParameters(child, rest, value, [path[0]]);
      } else if |path| > 2 {
        var prefix := [path[0]] + [rest[0]];
        assert rest[1..] == path[2..] && path[..2] == prefix;
        if prefix == PARAMETERS {
          var name := Join(path[2..]);
          var inner := Child(child, rest[0]);
          assert SetPathValue(inner, rest[1..], value, prefix) == SetKey(inner, name, value);
          assert SetPathValue(child, rest, value, [path[0]]) == PutBack(child, rest[0], SetKey(inner, name, value));
          assert SetNested(config, Flattened(path), value) ==
              PutBack(config, path[0], PutBack(child, rest[0], SetKey(Child(child, rest[0]), name, value))) by {
            ThreeKeys(config, path[0], rest[0], name, value);
          }
        } else {
          BelowParameters(Child(child, rest[0]), rest[1..], value, prefix);
        }
      }
    }
  }

  /** From the command line: whatever follows `postgresql.parameters.`, dots included, is the
      name of the parameter that is set. */
  lemma SetsParameter(config: Tree, name: string, value: Value)
    ensures SetPathValue(config, Split("postgresql.parameters." + name), value, []) ==
            SetNested(config, ["postgresql", "parameters", name], value)
  {
    hide Split, SetPathValue, SetNested, Join;
    ParameterSplits(name);
    SplitJoins(name);
    var path := Split("postgresql.parameters." + name);
    assert path[..2] == PARAMETERS && path[2..] == Split(name);
    SetsFlattenedPath(config, path, value);
    assert PARAMETERS + [name] == ["postgresql", "parameters", name];
  }

  lemma ParameterSplits(name: string)
    ensures Split("postgresql.parameters." + name) == PARAMETERS + Split(name)
  {
    hide Split;
    var tail := "parameters" + "." + name;
    assert "postgresql.parameters." + name == "postgresql" + "." + tail;
    SplitAtDot("postgresql", tail);
    SplitAtDot("parameters", name);
  }

  lemma {:induction false} SetReadsBack(config: Tree, path: Path, value: Value)
    ensures Lookup(SetNested(config, path, value), path) == if value.Null? then None else Some(value)
    ensures !value.Null? ==> SetNested(config, path, value) != map[]
    decreases |path|
  {
    if |path| > 1 {
      SetReadsBack(Child(config, path[0]), path[1..], value);
    } else if !value.Null? {
      assert path[0] in SetNested(config, path, value);
    }
    if |path| > 1 && !value.Null? { assert path[0] in SetNested(config, path, value); }
  }

  /** Paths that neither lead to nor through the one that is set look the same as before. */
  lemma {:induction false} SetKeepsUnrelated(config: Tree, path: Path, value: Value, other: Path)
    requires Unrelated(path, other)
    ensures Lookup(SetNested(config, path, value), other) == Lookup(config, other)
    decreases |path|
  {
    if path[0] == other[0] && |path| > 1 && |other| > 1 {
      var child := Child(config, path[0]);
      assert path == [path[0]] + path[1..] && other == [other[0]] + other[1..];
      SetKeepsUnrelated(child, path[1..], value, other[1..]);
    }
  }

  /** Every ancestor of the path that is set is a dictionary with entries, or is gone. */
  lemma {:induction false} AncestorsArePruned(config: Tree, path: Path, value: Value, n: nat)
    requires 0 < n < |path|
    ensures var above := Lookup(SetNested(config, path, value), path[..n]);
      above.None? || (above.value.Dict? && above.value.entries != map[])
    decreases |path|
  {
    if n > 1 {
      AncestorsArePruned(Child(config, path[0]), path[1..], value, n - 1);
      assert path[..n][1..] == path[1..][..n - 1];
    }
  }

  /** Nothing on the way to a new path is a scalar or an empty dictionary. */
  predicate IsRoomFor(config: Tree, path: Path)
    decreases |path|
  {
    path[0] in config ==>
      && |path| > 1 && config[path[0]].Dict? && config[path[0]].entries != map[]
      && IsRoomFor(config[path[0]].entries, path[1..])
  }

  /** Removing what was just set restores the tree exactly if there was room for it. */
  lemma {:induction false} SetThenRemoveIff(config: Tree, path: Path, value: Value)
    requires !value.Null?
    ensures SetNested(SetNested(config, path, value), path, Null) == config <==> IsRoomFor(config, path)
    decreases |path|
  {
    var key, set1 := path[0], SetNested(config, path, value);
    var set2 := SetNested(set1, path, Null);
    assert forall k :: k != key ==> (k in set2 <==> k in config) && (k in config ==> set2[k] == config[k]);
    if |path| > 1 {
      var child := Child(config, key);
      SetReadsBack(child, path[1..], value);
      SetThenRemoveIff(child, path[1..], value);
      var child2 := SetNested(SetNested(child, path[1..], value), path[1..], Null);
      assert set2 == PutBack(set1, key, child2);
      RoomInNothing(path[1..]);
      if key in config && config[key].Dict? {
        assert set2 == config <==> child2 == config[key].entries && child2 != map[] by {
          if set2 == config { assert set2[key] == Dict(child2); }
        }
      } else {
        assert child2 == map[] && key !in set2;
      }
    }
    if key !in config { assert key !in set2; assert set2 == config; }
  }

  lemma RoomInNothing(path: Path)
    ensures IsRoomFor(map[], path)
  {}

  // ------------------------------------------------------------------ applying a patch

  ghost predicate NullFree(v: Value) {
    match v
    case Null => false
    case Scalar(_) => true
    case Dict(entries) => forall k <- entries :: NullFree(entries[k])
  }

  function At(config: Tree, name: string): Option<Value> { if name in config then Some(config[name]) else None }

  /** What the tree has under a name of the patch afterwards. */
  function PatchedEntry(entry: Option<Value>, value: Value, str: Value -> string): Option<Value>
    decreases value, 1
  {
    if value.Null? then None
    else if entry.None? then Some(value)
    else if value.Dict? then
      if entry.value.Dict? then Some(Dict(Patched(entry.value.entries, value, str))) else Some(value)
    else if str(entry.value) != str(value) then Some(value)
    else entry
  }

  function Patched(config: Tree, data: Value, str: Value -> string): Tree
    requires data.Dict?
    decreases data, 0
  {
    map name | name in config.Keys + data.entries.Keys
      && (name in data.entries ==> PatchedEntry(At(config, name), data.entries[name], str).Some?)
      :: if name in data.entries then PatchedEntry(At(config, name), data.entries[name], str).value else config[name]
  }

  /** What a patch asks for under a name: a missing value is to be gone; a dictionary is to be
      merged into a dictionary, and to replace anything else; another value is to be there as it
      prints, and is put there unless what is there prints alike. */
  ghost predicate Obeys(before: Option<Value>, value: Value, after: Option<Value>, str: Value -> string)
    decreases value, 1
  {
    match value
    case Null => after.None?
    case Dict(_) =>
      if before.Some? && before.value.Dict?
      then after.Some? && after.value.Dict? && ObeysAll(before.value.entries, value, after.value.entries, str)
      else after == Some(value)
    case Scalar(_) =>
      && after.Some? && str(after.value) == str(value)
      && (before.Some? && str(before.value) == str(value) ==> after == before)
      && (before.None? || str(before.value) != str(value) ==> after == Some(value))
  }

  /** Under each name what the patch asks for, and nothing else is changed. */
  ghost predicate ObeysAll(before: Tree, data: Value, after: Tree, str: Value -> string)
    requires data.Dict?
    decreases data, 0
  {
    && (forall name <- data.entries :: Obeys(At(before, name), data.entries[name], At(after, name), str))
    && (forall name | name !in data.entries :: At(after, name) == At(before, name))
  }

  /** The patched tree has what the patch asks for. */
  lemma {:induction false} PatchIsObeyed(config: Tree, data: Value, str: Value -> string)
    requires data.Dict?
    ensures ObeysAll(config, data, Patched(config, data, str), str)
    decreases data
  {
    var after := Patched(config, data, str);
    forall name | name in data.entries ensures Obeys(At(config, name), data.entries[name], At(after, name), str) {
      PatchedAt(config, data, str, name);
      if data.entries[name].Dict? && name in config && config[name].Dict? {
        PatchIsObeyed(config[name].entries, data.entries[name], str);
      }
    }
    forall name | name !in data.entries ensures At(after, name) == At(config, name) {
      PatchedAt(config, data, str, name);
    }
  }

  /** Only one tree does. */
  lemma {:induction false} ObedienceIsUnique(config: Tree, data: Value, a: Tree, b: Tree, str: Value -> string)
    requires data.Dict? && ObeysAll(config, data, a, str) && ObeysAll(config, data, b, str)
    ensures a == b
    decreases data
  {
    forall name ensures At(a, name) == At(b, name) {
      if name in data.entries {
        var value := data.entries[name];
        assert Obeys(At(config, name), value, At(a, name), str) && Obeys(At(config, name), value, At(b, name), str);
        if value.Dict? && name in config && config[name].Dict? {
          ObedienceIsUnique(config[name].entries, value, a[name].entries, b[name].entries, str);
        }
      }
    }
    SameTree(a, b);
  }

  /** The answer `patch_config` gives. */
  ghost predicate ReportedEntry(entry: Option<Value>, value: Value, str: Value -> string)
    decreases value, 1
  {
    if value.Null? then entry.Some? && !entry.value.Null?
    else if entry.None? then true
    else if value.Dict? then
      entry.value.Dict? ==> Reported(entry.value.entries, value, str)
    else str(entry.value) != str(value)
  }

  ghost predicate Reported(config: Tree, data: Value, str: Value -> string)
    requires data.Dict?
    decreases data, 0
  {
    exists name <- data.entries :: ReportedEntry(At(config, name), data.entries[name], str)
  }

  /** The patch removes a missing value that the tree holds under a name. */
  ghost predicate DropsNullEntry(entry: Option<Value>, value: Value)
    decreases value, 1
  {
    entry.Some? &&
    ((value.Null? && entry.value.Null?)
     || (value.Dict? && entry.value.Dict? && DropsNull(entry.value.entries, value)))
  }

  ghost predicate DropsNull(config: Tree, data: Value)
    requires data.Dict?
    decreases data, 0
  {
    exists name <- data.entries :: DropsNullEntry(At(config, name), data.entries[name])
  }

  lemma {:induction false} EntryChangesIff(entry: Option<Value>, value: Value, str: Value -> string)
    ensures PatchedEntry(entry, value, str) != entry <==>
        ReportedEntry(entry, value, str) || DropsNullEntry(entry, value)
    decreases value, 1
  {
    if value.Dict? && entry.Some? && entry.value.Dict? {
      ChangesIff(entry.value.entries, value, str);
    }
  }

  lemma PatchedAt(config: Tree, data: Value, str: Value -> string, name: string)
    requires data.Dict?
    ensures At(Patched(config, data, str), name) ==
      if name in data.entries then PatchedEntry(At(config, name), data.entries[name], str) else At(config, name)
  {}

  lemma SameTree(a: Tree, b: Tree)
    requires forall k :: At(a, k) == At(b, k)
    ensures a == b
  {
    forall k ensures k in a <==> k in b { assert At(a, k) == At(b, k); }
    forall k | k in a ensures a[k] == b[k] { assert At(a, k) == At(b, k); }
  }

  /** A patch changes the tree exactly if it says so or only drops missing values. */
  lemma {:induction false} ChangesIff(config: Tree, data: Value, str: Value -> string)
    requires data.Dict?
    ensures Patched(config, data, str) != config <==> Reported(config, data, str) || DropsNull(config, data)
    decreases data, 0
  {
    var after := Patched(config, data, str);
    forall name ensures At(after, name) != At(config, name) <==>
        name in data.entries && (ReportedEntry(At(config, name), data.entries[name], str) ||
          DropsNullEntry(At(config, name), data.entries[name])) {
      PatchedAt(config, data, str, name);
      if name in data.entries { EntryChangesIff(At(config, name), data.entries[name], str); }
    }
    if !Reported(config, data, str) && !DropsNull(config, data) { SameTree(after, config); }
  }

  /** Removing a key that holds a missing value changes the tree, and is not reported. */
  lemma DroppedNullIsNotReported(key: string, str: Value -> string)
    ensures var config: Tree := map[key := Null]; var data := Dict(map[key := Null]);
            DropsNull(config, data) && !Reported(config, data, str) && Patched(config, data, str) != config
  {
    var config: Tree, data := map[key := Null], Dict(map[key := Null]);
    assert DropsNullEntry(At(config, key), data.entries[key]);
    ChangesIff(config, data, str);
  }

  /** On a tree without missing values the answer is exact. */
  lemma {:induction false} ReportIsExact(config: Tree, data: Value, str: Value -> string)
    requires data.Dict? && NullFree(Dict(config))
    ensures Reported(config, data, str) <==> Patched(config, data, str) != config
  {
    ChangesIff(config, data, str);
    NothingToDrop(config, data);
  }

  lemma {:induction false} NothingToDrop(config: Tree, data: Value)
    requires data.Dict? && NullFree(Dict(config))
    ensures !DropsNull(config, data)
    decreases data
  {
    forall name | name in data.entries ensures !DropsNullEntry(At(config, name), data.entries[name]) {
      if name in config && config[name].Dict? && data.entries[name].Dict? {
        NothingToDrop(config[name].entries, data.entries[name]);
      }
    }
  }

  // ------------------------------------------------------------------ applying a patch twice

  /** No missing value inside what is put into the tree whole. */
  ghost predicate CleanEntry(entry: Option<Value>, value: Value)
    decreases value, 1
  {
    value.Dict? ==>
      if entry.Some? && entry.value.Dict? then Clean(entry.value.entries, value) else NullFree(value)
  }

  ghost predicate Clean(config: Tree, data: Value)
    requires data.Dict?
    decreases data, 0
  {
    forall name <- data.entries :: CleanEntry(At(config, name), data.entries[name])
  }

  lemma {:induction false} SelfPatchIff(data: Value, str: Value -> string)
    requires data.Dict?
    ensures Patched(data.entries, data, str) == data.entries <==> NullFree(data)
    decreases data
  {
    var after := Patched(data.entries, data, str);
    forall name | name in data.entries
      ensures At(after, name) == At(data.entries, name) <==> NullFree(data.entries[name]) {
      PatchedAt(data.entries, data, str, name);
      if data.entries[name].Dict? { SelfPatchIff(data.entries[name], str); }
    }
    forall name | name !in data.entries ensures At(after, name) == At(data.entries, name) {
      PatchedAt(data.entries, data, str, name);
    }
    if NullFree(data) { SameTree(after, data.entries); }
  }

  lemma {:induction false} EntryTwiceIff(entry: Option<Value>, value: Value, str: Value -> string)
    ensures var once := PatchedEntry(entry, value, str);
            PatchedEntry(once, value, str) == once <==> CleanEntry(entry, value)
    decreases value, 1
  {
    if value.Dict? {
      if entry.Some? && entry.value.Dict? {
        TwiceIff(entry.value.entries, value, str);
      } else {
        SelfPatchIff(value, str);
      }
    }
  }

  /** Applying a patch a second time changes nothing exactly if the first application put no
      missing value into the tree. */
  lemma {:induction false} TwiceIff(config: Tree, data: Value, str: Value -> string)
    requires data.Dict?
    ensures var once := Patched(config, data, str); Patched(once, data, str) == once <==> Clean(config, data)
    decreases data, 0
  {
    var once := Patched(config, data, str);
    var twice := Patched(once, data, str);
    forall name ensures At(twice, name) == At(once, name) <==>
      (name in data.entries ==> CleanEntry(At(config, name), data.entries[name])) {
      PatchedAt(config, data, str, name);
      PatchedAt(once, data, str, name);
      if name in data.entries { EntryTwiceIff(At(config, name), data.entries[name], str); }
    }
    if Clean(config, data) { SameTree(twice, once); }
  }

  /** A new dictionary is put into the tree whole, and cleared of its missing value later. */
  lemma TwiceMayDiffer(key: string, inner: string, str: Value -> string)
    ensures var data := Dict(map[key := Dict(map[inner := Null])]); var once := Patched(map[], data, str);
            !Clean(map[], data) && Patched(once, data, str) != once
  {
    var entry := Dict(map[inner := Null]);
    var data := Dict(map[key := entry]);
    assert !NullFree(entry) by { assert !NullFree(entry.entries[inner]); }
    assert !CleanEntry(At(map[], key), data.entries[key]);
    TwiceIff(map[], data, str);
  }

  lemma {:induction false} NullFreeIsClean(config: Tree, data: Value)
    requires NullFree(data) && data.Dict?
    ensures Clean(config, data)
    decreases data
  {
    forall name | name in data.entries ensures CleanEntry(At(config, name), data.entries[name]) {
      if data.entries[name].Dict? && name in config && config[name].Dict? {
        NullFreeIsClean(config[name].entries, data.entries[name]);
      }
    }
  }

  /** `patch_config`, visiting the names of the patch in any order. */
  method PatchConfig(config: Tree, data: Value, str: Value -> string) returns (result: Tree, changed: bool)
    requires data.Dict?
    ensures result == Patched(config, data, str)
    ensures changed == Reported(config, data, str)
    decreases data, 0
  {
    hide PatchedEntry, ReportedEntry, Patched, Reported, PatchedUpTo, ReportedUpTo;
    NonePatched(config, data, str);
    result, changed := config, false;
    var names := data.entries.Keys;
    ghost var done: set<string> := {};
    while names != {}
      invariant done + names == data.entries.Keys && done !! names
      invariant PatchedUpTo(config, data, str, done, result)
      invariant changed == ReportedUpTo(config, data, str, done)
      decreases |names|
    {
      var name :| name in names;
      names := names - {name};
      ghost var before := result;
      var isChanged;
      result, isChanged := PatchName(result, name, data.entries[name], str);
      changed := changed || isChanged;
      OneMorePatched(config, data, str, done, name, before, result);
      done := done + {name};
    }
    AllPatched(config, data, str, done, result);
  }

  ghost predicate PatchedUpTo(config: Tree, data: Value, str: Value -> string, done: set<string>, result: Tree)
    requires data.Dict? && done <= data.entries.Keys
  {
    forall k :: At(result, k) == if k in done then PatchedEntry(At(config, k), data.entries[k], str) else At(config, k)
  }

  ghost predicate ReportedUpTo(config: Tree, data: Value, str: Value -> string, done: set<string>)
    requires data.Dict? && done <= data.entries.Keys
  {
    exists k <- done :: ReportedEntry(At(config, k), data.entries[k], str)
  }

  lemma NonePatched(config: Tree, data: Value, str: Value -> string)
    requires data.Dict?
    ensures PatchedUpTo(config, data, str, {}, config) && !ReportedUpTo(config, data, str, {})
  {}

  lemma OneMorePatched(config: Tree, data: Value, str: Value -> string, done: set<string>, name: string, before: Tree,
      after: Tree)
    requires data.Dict? && done <= data.entries.Keys && name in data.entries && name !in done
    requires PatchedUpTo(config, data, str, done, before)
    requires At(after, name) == PatchedEntry(At(before, name), data.entries[name], str)
    requires forall k :: k != name ==> At(after, k) == At(before, k)
    ensures At(before, name) == At(config, name)
    ensures PatchedUpTo(config, data, str, done + {name}, after)
    ensures ReportedUpTo(config, data, str, done + {name}) <==>
      ReportedUpTo(config, data, str, done) || ReportedEntry(At(config, name), data.entries[name], str)
  {
    hide PatchedEntry, ReportedEntry;
  }

  lemma AllPatched(config: Tree, data: Value, str: Value -> string, done: set<string>, result: Tree)
    requires data.Dict? && done == data.entries.Keys && PatchedUpTo(config, data, str, done, result)
    ensures result == Patched(config, data, str)
    ensures ReportedUpTo(config, data, str, done) == Reported(config, data, str)
  {
    forall k ensures At(result, k) == At(Patched(config, data, str), k) { PatchedAt(config, data, str, k); }
    SameTree(result, Patched(config, data, str));
  }

  /** One name of the patch. */
  method PatchName(config: Tree, name: string, value: Value, str: Value -> string) returns (result: Tree, changed: bool)
    ensures At(result, name) == PatchedEntry(At(config, name), value, str)
    ensures forall k :: k != name ==> At(result, k) == At(config, k)
    ensures changed == ReportedEntry(At(config, name), value, str)
    decreases value, 1
  {
    result, changed := config, false;
    if value.Null? {
      changed := name in config && !config[name].Null?;
      result := config - {name};
    } else if name !in config {
      result, changed := config[name := value], true;
    } else if value.Dict? {
      if config[name].Dict? {
        var inner;
        inner, changed := PatchConfig(config[name].entries, value, str);
        result := config[name := Dict(inner)];
      } else {
        result, changed := config[name := value], true;
      }
    } else if str(config[name]) != str(value) {
      result, changed := config[name := value], true;
    }
  }
}
