/**
 The environment of a child process on systems other than Windows: the server's own directory goes in
 front of the user's PATH, and the user's variables are folded over the environment of the server, in
 whatever order the map yields them.
 */
module Environment {
  import opened Bytes

  const PATH := "PATH"
  const MIXED_CASE_PATH := "Path"

  type Env = seq<string>

  /** strings.HasPrefix(entry, key + "=") */
  predicate HasKey(entry: string, key: string) { key + "=" <= entry }

  /** The entries without those that have the property, and those alone. */
  function Without(env: Env, p: string -> bool): Env {
    if env == [] then []
    else
      var front, last := Without(env[..|env| - 1], p), env[|env| - 1];
      if p(last) then front else front + [last]
  }

  function Only(env: Env, p: string -> bool): Env {
    if env == [] then []
    else
      var front, last := Only(env[..|env| - 1], p), env[|env| - 1];
      if p(last) then front + [last] else front
  }

  function Has(key: string): string -> bool { (entry: string) => HasKey(entry, key) }

  function Remove(env: Env, key: string): Env { Without(env, Has(key)) }

  /** The entries of one variable. */
  function Named(env: Env, key: string): Env { Only(env, Has(key)) }

  /** The value of the first PATH entry. */
  function GetPath(env: Env): string {
    if env == [] then "" else if HasKey(env[0], PATH) then env[0][|PATH| + 1..] else GetPath(env[1..])
  }

  function SetPath(env: Env, value: string): Env {
    Remove(Remove(env, PATH), MIXED_CASE_PATH) + [PATH + "=" + value]
  }

  /** mergePaths with one directory list in front. */
  function Merge(first: string, existing: string): string {
    if existing == "" then first else first + ":" + existing
  }

  function ApplyOne(env: Env, key: string, value: string): Env {
    if key == PATH then SetPath(env, Merge(value, GetPath(env)))
    else Remove(env, key) + [key + "=" + value]
  }

  /** The user's variables in this order. */
  function ApplyAll(base: Env, user: map<string, string>, order: seq<string>): Env
    requires forall k :: k in order ==> k in user
  {
    if order == [] then base
    else
      var last := order[|order| - 1];
      ApplyOne(ApplyAll(base, user, order[..|order| - 1]), last, user[last])
  }

  /** An order in which a map with these keys may be iterated over. */
  predicate Iterates(order: seq<string>, keys: set<string>) {
    && (forall k :: k in order ==> k in keys) && (forall k :: k in keys ==> k in order)
    && Distinct(order)
  }

  predicate Distinct(order: seq<string>) { forall i, j :: 0 <= i < j < |order| ==> order[i] != order[j] }

  // ---------- the result in closed form ----------

  /** Setting these keys removes this entry. */
  predicate Overridden(entry: string, keys: seq<string>) {
    (exists k :: k in keys && HasKey(entry, k)) || (PATH in keys && HasKey(entry, MIXED_CASE_PATH))
  }

  function OverriddenBy(keys: seq<string>): string -> bool { (entry: string) => Overridden(entry, keys) }

  /** The entry a user variable gets. */
  function Entry(base: Env, user: map<string, string>, key: string): string
    requires key in user
  {
    key + "=" + if key == PATH then Merge(user[key], GetPath(base)) else user[key]
  }

  function Added(base: Env, user: map<string, string>, order: seq<string>): (r: Env)
    requires forall k :: k in order ==> k in user
    ensures |r| == |order|
  {
    seq(|order|, i requires 0 <= i < |order| => Entry(base, user, order[i]))
  }

  /** The order of the base environment is kept and the user's variables follow in the order of the
      iteration. */
  function Expected(base: Env, user: map<string, string>, order: seq<string>): Env
    requires forall k :: k in order ==> k in user
  {
    Without(base, OverriddenBy(order)) + Added(base, user, order)
  }

  predicate NoEquals(keys: set<string>) { forall k :: k in keys ==> '=' !in k }

  predicate BothPaths(keys: set<string>) { PATH in keys && MIXED_CASE_PATH in keys }

  // ---------- filters ----------

  lemma {:induction false} WithoutAppend(a: Env, b: Env, p: string -> bool)
    ensures Without(a + b, p) == Without(a, p) + Without(b, p)
    ensures Only(a + b, p) == Only(a, p) + Only(b, p)
    decreases |b|
  {
    if b == [] {
      assert a + b == a;
    } else {
      var front, last := b[..|b| - 1], b[|b| - 1];
      assert (a + b)[..|a + b| - 1] == a + front;
      WithoutAppend(a, front, p);
      Assoc(Without(a, p), Without(front, p), [last]);
      Assoc(Only(a, p), Only(front, p), [last]);
    }
  }

  lemma {:induction false} WithoutNothing(env: Env, p: string -> bool)
    requires forall i :: 0 <= i < |env| ==> !p(env[i])
    ensures Without(env, p) == env && Only(env, p) == []
  {
    if env != [] {
      var front, last := env[..|env| - 1], env[|env| - 1];
      assert env == front + [last];
      WithoutNothing(front, p);
    }
  }

  lemma WithoutSingle(e: string, p: string -> bool)
    ensures Without([e], p) == (if p(e) then [] else [e]) && Only([e], p) == if p(e) then [e] else []
  {
    assert [e][..0] == [];
  }

  lemma {:induction false} WithoutTwice(env: Env, p: string -> bool, q: string -> bool, both: string -> bool)
    requires forall e :: both(e) <==> p(e) || q(e)
    ensures Without(Without(env, p), q) == Without(env, both)
    decreases |env|
  {
    if env != [] {
      var n := |env| - 1;
      WithoutTwice(env[..n], p, q, both);
      if !p(env[n]) {
        WithoutAppend(Without(env[..n], p), [env[n]], q);
        WithoutSingle(env[n], q);
      }
    }
  }

  lemma {:induction false} OnlyOfWithout(env: Env, p: string -> bool, q: string -> bool)
    requires forall e :: q(e) ==> !p(e)
    ensures Only(Without(env, p), q) == Only(env, q)
    decreases |env|
  {
    if env != [] {
      var n := |env| - 1;
      OnlyOfWithout(env[..n], p, q);
      if !p(env[n]) {
        WithoutAppend(Without(env[..n], p), [env[n]], q);
        WithoutSingle(env[n], q);
      }
    }
  }

  lemma {:induction false} OnlyGone(env: Env, p: string -> bool, q: string -> bool)
    requires forall e :: q(e) ==> p(e)
    ensures Only(Without(env, p), q) == []
    decreases |env|
  {
    if env != [] {
      var n := |env| - 1;
      OnlyGone(env[..n], p, q);
      if !p(env[n]) {
        WithoutAppend(Without(env[..n], p), [env[n]], q);
        WithoutSingle(env[n], q);
      }
    }
  }

  // ---------- keys without '=' do not meet ----------

  lemma KeysApart(entry: string, a: string, b: string)
    requires '=' !in a && '=' !in b && HasKey(entry, a) && HasKey(entry, b)
    ensures a == b
  {
    if |a| < |b| {
      ShorterKey(entry, a, b);
    } else if |b| < |a| {
      ShorterKey(entry, b, a);
    } else {
      assert a == entry[..|a|] && b == entry[..|b|];
    }
  }

  lemma ShorterKey(entry: string, a: string, b: string)
    requires HasKey(entry, a) && HasKey(entry, b) && |a| < |b|
    ensures '=' in b
  {
    assert (a + "=")[|a|] == entry[|a|] == (b + "=")[|a|] == b[|a|];
  }

  lemma OverriddenMore(keys: seq<string>, key: string)
    ensures forall e :: OverriddenBy(keys + [key])(e) <==>
                        Overridden(e, keys) || HasKey(e, key) || (key == PATH && HasKey(e, MIXED_CASE_PATH))
  {
    assert forall k :: k in keys + [key] <==> k in keys || k == key;
  }

  /** What one more key leaves of the base environment. */
  lemma KeptMore(base: Env, keys: seq<string>, key: string)
    ensures var kept := Without(base, OverriddenBy(keys));
            Without(base, OverriddenBy(keys + [key])) ==
            if key == PATH then Remove(Remove(kept, PATH), MIXED_CASE_PATH) else Remove(kept, key)
  {
    OverriddenMore(keys, key);
    var p := OverriddenBy(keys);
    if key == PATH {
      var q := (e: string) => p(e) || HasKey(e, PATH);
      WithoutTwice(base, p, Has(PATH), q);
      WithoutTwice(base, q, Has(MIXED_CASE_PATH), OverriddenBy(keys + [key]));
    } else {
      WithoutTwice(base, p, Has(key), OverriddenBy(keys + [key]));
    }
  }

  /** An entry with one of these keys has no other. */
  lemma AddedApart(base: Env, user: map<string, string>, order: seq<string>, key: string)
    requires (forall k :: k in order ==> k in user && '=' !in k) && '=' !in key && key !in order
    ensures Remove(Added(base, user, order), key) == Added(base, user, order)
    ensures Named(Added(base, user, order), key) == []
  {
    var added := Added(base, user, order);
    forall i | 0 <= i < |added| ensures !Has(key)(added[i]) {
      assert HasKey(added[i], order[i]) && order[i] in order;
      if HasKey(added[i], key) {
        KeysApart(added[i], order[i], key);
      }
    }
    WithoutNothing(added, Has(key));
  }

  /** Entries with this key are not overridden by others. */
  lemma NotOverridden(keys: seq<string>, key: string)
    requires (forall k :: k in keys ==> '=' !in k) && '=' !in key && key !in keys
    requires !(key == MIXED_CASE_PATH && PATH in keys)
    ensures forall e :: Has(key)(e) ==> !OverriddenBy(keys)(e)
  {
    forall e | Has(key)(e) ensures !Overridden(e, keys) {
      forall k | k in keys ensures !HasKey(e, k) {
        if HasKey(e, k) {
          KeysApart(e, k, key);
        }
      }
      if PATH in keys && HasKey(e, MIXED_CASE_PATH) {
        KeysApart(e, MIXED_CASE_PATH, key);
      }
    }
  }

  function FirstValue(entries: Env): string
    requires forall e :: e in entries ==> |e| > |PATH|
  {
    if entries == [] then "" else entries[0][|PATH| + 1..]
  }

  /** GetPath looks at nothing but the PATH entries. */
  lemma {:induction false} GetPathNamed(env: Env)
    ensures forall e :: e in Named(env, PATH) ==> |e| > |PATH|
    ensures GetPath(env) == FirstValue(Named(env, PATH))
  {
    if env != [] {
      GetPathNamed(env[1..]);
      assert env == [env[0]] + env[1..];
      WithoutAppend([env[0]], env[1..], Has(PATH));
      WithoutSingle(env[0], Has(PATH));
    }
  }

  /** The PATH of the server is found whatever was set before. */
  lemma PathFound(base: Env, user: map<string, string>, order: seq<string>)
    requires (forall k :: k in order ==> k in user && '=' !in k) && PATH !in order
    ensures GetPath(Expected(base, user, order)) == GetPath(base)
  {
    var kept := Without(base, OverriddenBy(order));
    NotOverridden(order, PATH);
    OnlyOfWithout(base, OverriddenBy(order), Has(PATH));
    AddedApart(base, user, order, PATH);
    WithoutAppend(kept, Added(base, user, order), Has(PATH));
    GetPathNamed(base);
    GetPathNamed(Expected(base, user, order));
  }

  lemma AddedSnoc(base: Env, user: map<string, string>, order: seq<string>, key: string)
    requires forall k :: k in order + [key] ==> k in user
    ensures forall k :: k in order ==> k in user
    ensures Added(base, user, order + [key]) == Added(base, user, order) + [Entry(base, user, key)]
  {
    forall k | k in order ensures k in user {
      assert k in order + [key];
    }
    assert key in order + [key];
  }

  /** One more variable other than PATH. */
  lemma ExpectedVariable(base: Env, user: map<string, string>, order: seq<string>, key: string)
    requires (forall k :: k in order ==> k in user && '=' !in k) && key in user && '=' !in key && key !in order
    requires key != PATH
    ensures ApplyOne(Expected(base, user, order), key, user[key])
         == Without(base, OverriddenBy(order + [key])) + (Added(base, user, order) + [Entry(base, user, key)])
  {
    var kept, added := Without(base, OverriddenBy(order)), Added(base, user, order);
    KeptMore(base, order, key);
    WithoutAppend(kept, added, Has(key));
    AddedApart(base, user, order, key);
    Assoc(Remove(kept, key), added, [Entry(base, user, key)]);
  }

  lemma ExpectedPath(base: Env, user: map<string, string>, order: seq<string>)
    requires (forall k :: k in order ==> k in user && '=' !in k) && PATH in user && PATH !in order
            && MIXED_CASE_PATH !in order
    ensures ApplyOne(Expected(base, user, order), PATH, user[PATH])
         == Without(base, OverriddenBy(order + [PATH])) + (Added(base, user, order) + [Entry(base, user, PATH)])
  {
    var kept, added := Without(base, OverriddenBy(order)), Added(base, user, order);
    KeptMore(base, order, PATH);
    PathFound(base, user, order);
    WithoutAppend(kept, added, Has(PATH));
    AddedApart(base, user, order, PATH);
    AddedApart(base, user, order, MIXED_CASE_PATH);
    WithoutAppend(Remove(kept, PATH), added, Has(MIXED_CASE_PATH));
    Assoc(Remove(Remove(kept, PATH), MIXED_CASE_PATH), added, [Entry(base, user, PATH)]);
  }

  lemma ExpectedSnoc(base: Env, user: map<string, string>, order: seq<string>, key: string)
    requires (forall k :: k in order ==> k in user && '=' !in k) && key in user && '=' !in key && key !in order
    requires key == PATH ==> MIXED_CASE_PATH !in order
    ensures ApplyOne(Expected(base, user, order), key, user[key]) == Expected(base, user, order + [key])
  {
    AddedSnoc(base, user, order, key);
    if key == PATH {
      ExpectedPath(base, user, order);
    } else {
      ExpectedVariable(base, user, order, key);
    }
  }

  /** PATH does not come after Path. */
  predicate PathsInOrder(order: seq<string>) {
    forall i, j :: 0 <= i < j < |order| && order[j] == PATH ==> order[i] != MIXED_CASE_PATH
  }

  lemma {:induction false} ClosedForm(base: Env, user: map<string, string>, order: seq<string>)
    requires (forall k :: k in order ==> k in user && '=' !in k) && Distinct(order) && PathsInOrder(order)
    ensures ApplyAll(base, user, order) == Expected(base, user, order)
  {
    if order == [] {
      WithoutNothing(base, OverriddenBy([]));
    } else {
      var front, last := order[..|order| - 1], order[|order| - 1];
      assert order == front + [last];
      ClosedForm(base, user, front);
      ExpectedSnoc(base, user, front, last);
    }
  }

  // ---------- what each variable becomes ----------

  lemma {:induction false} NamedAdded(base: Env, user: map<string, string>, order: seq<string>, key: string)
    requires (forall k :: k in order ==> k in user && '=' !in k) && Distinct(order) && key in order
    ensures Named(Added(base, user, order), key) == [Entry(base, user, key)]
    decreases |order|
  {
    var front, last := order[..|order| - 1], order[|order| - 1];
    assert order == front + [last];
    AddedSnoc(base, user, front, last);
    WithoutAppend(Added(base, user, front), [Entry(base, user, last)], Has(key));
    NamedEntry(base, user, last, key);
    if key == last {
      AddedApart(base, user, front, key);
    } else {
      assert key in front;
      NamedAdded(base, user, front, key);
    }
  }

  lemma NamedEntry(base: Env, user: map<string, string>, of: string, key: string)
    requires of in user && '=' !in of && '=' !in key
    ensures Named([Entry(base, user, of)], key) == if key == of then [Entry(base, user, of)] else []
  {
    var entry := Entry(base, user, of);
    assert HasKey(entry, of);
    WithoutSingle(entry, Has(key));
    if HasKey(entry, key) {
      KeysApart(entry, key, of);
    }
  }

  /** In this environment each of the user's variables has its one entry: PATH the user's value in
      front of the server's, the others just the user's value. */
  predicate Applied(base: Env, user: map<string, string>, result: Env) {
    forall key :: key in user ==> Named(result, key) == [Entry(base, user, key)]
  }

  /** For keys without '=', and not both PATH and Path: whatever the order of the iteration, the result
      is the base environment, in order, without what the user overrides, then the user's variables in
      the order of the iteration; each user variable has exactly one entry, and every other variable
      has the entries it had, except Path when PATH is set. */
  lemma EveryOrder(base: Env, user: map<string, string>, order: seq<string>)
    requires Iterates(order, user.Keys) && NoEquals(user.Keys) && !BothPaths(user.Keys)
    ensures ApplyAll(base, user, order) == Expected(base, user, order)
    ensures Applied(base, user, ApplyAll(base, user, order))
    ensures forall other :: other !in user && '=' !in other && !(other == MIXED_CASE_PATH && PATH in user) ==>
              Named(ApplyAll(base, user, order), other) == Named(base, other)
  {
    ClosedForm(base, user, order);
    var kept, added := Without(base, OverriddenBy(order)), Added(base, user, order);
    forall key | key in user ensures Named(Expected(base, user, order), key) == [Entry(base, user, key)] {
      WithoutAppend(kept, added, Has(key));
      NamedAdded(base, user, order, key);
      OnlyGone(base, OverriddenBy(order), Has(key));
    }
    forall other | other !in user && '=' !in other && !(other == MIXED_CASE_PATH && PATH in user)
      ensures Named(Expected(base, user, order), other) == Named(base, other)
    {
      WithoutAppend(kept, added, Has(other));
      AddedApart(base, user, order, other);
      NotOverridden(order, other);
      OnlyOfWithout(base, OverriddenBy(order), Has(other));
    }
  }

  lemma {:induction false} SomeOrder(keys: set<string>) returns (order: seq<string>)
    ensures Iterates(order, keys)
    decreases |keys|
  {
    if keys == {} {
      order := [];
    } else {
      var k :| k in keys;
      order := SomeOrder(keys - {k});
      order := order + [k];
    }
  }

  /** If PATH comes last, the user's Path is gone. */
  lemma PathLast(base: Env, user: map<string, string>, order: seq<string>)
    requires PATH in user && forall k :: k in order ==> k in user
    ensures Named(ApplyAll(base, user, order + [PATH]), MIXED_CASE_PATH) == []
  {
    assert (order + [PATH])[..|order|] == order;
    var env := ApplyAll(base, user, order);
    var entry := PATH + "=" + Merge(user[PATH], GetPath(env));
    var rest := Remove(Remove(env, PATH), MIXED_CASE_PATH);
    OnlyGone(Remove(env, PATH), Has(MIXED_CASE_PATH), Has(MIXED_CASE_PATH));
    WithoutAppend(rest, [entry], Has(MIXED_CASE_PATH));
    WithoutSingle(entry, Has(MIXED_CASE_PATH));
    assert entry[1] != MIXED_CASE_PATH[1];
  }

  /** Every iteration order applies all of the user's variables. */
  ghost predicate AppliedInEveryOrder(base: Env, user: map<string, string>) {
    forall order :: Iterates(order, user.Keys) ==> Applied(base, user, ApplyAll(base, user, order))
  }

  /** The override is right in every order if and only if the user did not set both PATH and Path. */
  lemma AppliedIff(base: Env, user: map<string, string>)
    requires NoEquals(user.Keys)
    ensures AppliedInEveryOrder(base, user) <==> !BothPaths(user.Keys)
  {
    if !BothPaths(user.Keys) {
      forall order | Iterates(order, user.Keys) ensures Applied(base, user, ApplyAll(base, user, order)) {
        EveryOrder(base, user, order);
      }
    } else {
      var order := SomeOrder(user.Keys - {PATH});
      assert Iterates(order + [PATH], user.Keys);
      PathLast(base, user, order);
      assert !Applied(base, user, ApplyAll(base, user, order + [PATH]));
    }
  }

  /** For instance, PATH=/a and Path=/b. */
  lemma TwoPaths(base: Env)
    ensures !AppliedInEveryOrder(base, map["PATH" := "/a", "Path" := "/b"])
  {
    var user := map["PATH" := "/a", "Path" := "/b"];
    assert '=' !in "PATH" && '=' !in "Path";
    AppliedIff(base, user);
  }

  // ---------- the server's preparation ----------

  /** PrepareExecutionEnvironment: the directory of the server's executable, if it is known, goes in
      front of the user's PATH. */
  function Prepare(user: map<string, string>, dir: string): map<string, string> {
    if dir == "" then user
    else user[PATH := Merge(dir, if PATH in user then user[PATH] else "")]
  }

  /** The child's PATH lists the server's directory, then what the user asked for, then what the server
      itself has, leaving out what is empty - whatever the order of the iteration, unless the user set
      Path, which the server's own setting of PATH then fights with. */
  lemma ChildPath(base: Env, user: map<string, string>, dir: string, order: seq<string>)
    requires dir != "" && NoEquals(user.Keys) && MIXED_CASE_PATH !in user
    requires Iterates(order, Prepare(user, dir).Keys)
    ensures var result := ApplyAll(base, Prepare(user, dir), order);
            && Named(result, PATH) == [PATH + "=" + Merge(Merge(dir, if PATH in user then user[PATH]
                else ""), GetPath(base))]
            && (forall key :: key in user && key != PATH ==> Named(result, key) == [key + "=" + user[key]])
  {
    EveryOrder(base, Prepare(user, dir), order);
  }

  /** With the server's directory known, a Path set by the user survives some orders only. */
  lemma PathOfTheUser(base: Env, user: map<string, string>, dir: string)
    requires dir != "" && NoEquals(user.Keys)
    ensures AppliedInEveryOrder(base, Prepare(user, dir)) <==> MIXED_CASE_PATH !in user
  {
    AppliedIff(base, Prepare(user, dir));
  }

  // ---------- the source's loops ----------

  method RemoveEnvVar(env: Env, key: string) returns (result: Env)
    ensures result == Remove(env, key)
    ensures forall e :: e in result ==> e in env && !HasKey(e, key)
  {
    result := [];
    for i := 0 to |env|
      invariant result == Without(env[..i], Has(key))
      invariant forall e :: e in result ==> e in env && !HasKey(e, key)
    {
      assert env[..i + 1][..i] == env[..i];
      if !HasKey(env[i], key) {
        result := result + [env[i]];
      }
    }
    assert env[..|env|] == env;
  }

  method GetPathFromEnv(env: Env) returns (value: string)
    ensures value == GetPath(env)
  {
    for i := 0 to |env|
      invariant GetPath(env) == GetPath(env[i..])
    {
      assert env[i..][1..] == env[i + 1..];
      if HasKey(env[i], PATH) {
        return env[i][|PATH| + 1..];
      }
    }
    value := "";
  }

  method SetPathInEnv(env: Env, value: string) returns (result: Env)
    ensures result == SetPath(env, value)
  {
    var withoutPath := RemoveEnvVar(env, PATH);
    result := RemoveEnvVar(withoutPath, MIXED_CASE_PATH);
    result := result + [PATH + "=" + value];
  }

  /** strings.Join */
  function Join(parts: seq<string>, separator: string): string {
    if parts == [] then "" else if |parts| == 1 then parts[0] else parts[0] + separator + Join(parts[1..], separator)
  }

  method MergePaths(dirs: seq<string>, existing: string) returns (merged: string)
    ensures dirs == [] ==> merged == existing
    ensures dirs != [] ==> merged == Join(if existing == "" then dirs else dirs + [existing], ":")
    ensures |dirs| == 1 ==> merged == Merge(dirs[0], existing)
  {
    if dirs == [] {
      return existing;
    }
    var parts := dirs;
    if existing != "" {
      parts := parts + [existing];
    }
    merged := Join(parts, ":");
    assert |dirs| == 1 && existing != "" ==> parts[1..] == [existing];
  }

  /** applyUserEnvironment: some order of the iteration was followed, and for keys without '=' and not
      both PATH and Path it does not matter which. */
  method ApplyUserEnvironment(base: Env, user: map<string, string>) returns (env: Env, ghost order: seq<string>)
    ensures Iterates(order, user.Keys) && env == ApplyAll(base, user, order)
    ensures NoEquals(user.Keys) && !BothPaths(user.Keys) ==> Applied(base, user, env)
  {
    env, order := base, [];
    var todo := user.Keys;
    while todo != {}
      invariant todo <= user.Keys && Iterates(order, user.Keys - todo)
      invariant env == ApplyAll(base, user, order)
    {
      var key :| key in todo;
      todo := todo - {key};
      assert (order + [key])[..|order|] == order;
      if key == PATH {
        var system := GetPathFromEnv(env);
        var merged := MergePaths([user[key]], system);
        env := SetPathInEnv(env, merged);
      } else {
        env := RemoveEnvVar(env, key);
        env := env + [key + "=" + user[key]];
      }
      order := order + [key];
    }
    if NoEquals(user.Keys) && !BothPaths(user.Keys) {
      EveryOrder(base, user, order);
    }
  }
}
