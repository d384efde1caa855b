/** `_add_argument`: the result object of the command-line parser, and how a
    named argument is added to it.  The first value given for a name is stored
    as it is; every further value turns the entry into an array that collects
    all values in the order they were given, arrays spread one level. */
module Arguments {
  import opened Values

  /** The entries after adding `v` under `name` to `m`. */
  function Merged(m: map<string, Value>, name: string, v: Value): (r: map<string, Value>)
    ensures r.Keys == m.Keys + {name}
    ensures forall k :: k in m && k != name ==> r[k] == m[k]
  {
    if name in m then m[name := Arr(Contribution(m[name]) + Contribution(v))]
    else m[name := v]
  }

  /** The result object being built: its own properties and their values. */
  class ArgumentMap {
    var entries: map<string, Value>

    constructor()
      ensures entries == map[]
    {
      entries := map[];
    }

    /** `_add_argument(result, name, value)`: a new name is stored with its
        value; an existing array entry is extended (`concat` for an array value,
        `push` otherwise); an existing single entry becomes an array of the old
        value followed by the new one (spread if it is an array). */
    method AddArgument(name: string, value: Value)
      modifies this
      ensures entries == Merged(old(entries), name, value)
    {
      if name in entries {
        var existing := entries[name];
        if existing.Arr? {
          if value.Arr? {
            entries := entries[name := Arr(existing.items + value.items)];
          } else {
            entries := entries[name := Arr(existing.items + [value])];
          }
        } else {
          if value.Arr? {
            entries := entries[name := Arr([existing] + value.items)];
          } else {
            assert Contribution(existing) + Contribution(value) == [existing, value];
            entries := entries[name := Arr([existing, value])];
          }
        }
      } else {
        entries := entries[name := value];
      }
    }
  }

  /** The entries after the additions `adds`, made in order, starting from `m`. */
  function Accumulate(m: map<string, Value>, adds: seq<(string, Value)>): map<string, Value>
    decreases |adds|
  {
    if adds == [] then m else Accumulate(Merged(m, adds[0].0, adds[0].1), adds[1..])
  }

  /** The values added under `name`, in order. */
  function ValuesFor(adds: seq<(string, Value)>, name: string): seq<Value>
    decreases |adds|
  {
    if adds == [] then []
    else (if adds[0].0 == name then [adds[0].1] else []) + ValuesFor(adds[1..], name)
  }

  /** The value already stored under `name`, as a list of at most one element. */
  function Prior(m: map<string, Value>, name: string): seq<Value>
  {
    if name in m then [m[name]] else []
  }

  /** The entry that holds the values `vs` given for one name: the value itself
      when there is one, otherwise the array of all their contributions. */
  function Combined(vs: seq<Value>): Value
    requires vs != []
  {
    if |vs| == 1 then vs[0] else Arr(Contributions(vs))
  }

  lemma {:induction false} ContributionsAppend(a: seq<Value>, b: seq<Value>)
    ensures Contributions(a + b) == Contributions(a) + Contributions(b)
    decreases |b|
  {
    if b == [] {
      assert a + b == a;
    } else {
      var init := b[..|b| - 1];
      assert (a + b)[..|a + b| - 1] == a + init;
      assert (a + b)[|a + b| - 1] == b[|b| - 1];
      ContributionsAppend(a, init);
      assert Contributions(a + b) == Contributions(a + init) + Contribution(b[|b| - 1]);
    }
  }

  lemma ContributionsSingle(v: Value)
    ensures Contributions([v]) == Contribution(v)
  {
    assert [v][..0] == [];
  }

  lemma ContributionsPair(p: Value, v: Value)
    ensures Contributions([p, v]) == Contribution(p) + Contribution(v)
  {
    assert [p, v][..1] == [p];
    ContributionsSingle(p);
  }

  /** Collecting into an entry that already holds the array of several values is
      the same as collecting all those values at once. */
  lemma CombinedCollapse(vs: seq<Value>, rest: seq<Value>)
    requires |vs| >= 2
    ensures Combined([Arr(Contributions(vs))] + rest) == Combined(vs + rest)
  {
    if rest != [] {
      var x := Arr(Contributions(vs));
      ContributionsAppend([x], rest);
      ContributionsAppend(vs, rest);
      ContributionsSingle(x);
      calc {
        Combined([x] + rest);
        Arr(Contributions([x] + rest));
        Arr(Contributions([x]) + Contributions(rest));
        Arr(Contributions(vs) + Contributions(rest));
        Arr(Contributions(vs + rest));
        Combined(vs + rest);
      }
    } else {
      assert [Arr(Contributions(vs))] + rest == [Arr(Contributions(vs))];
      assert vs + rest == vs;
    }
  }

  /** What the additions leave under one name: the name is present exactly when
      it was present before or some addition used it, and its entry combines
      the earlier value and every added value, oldest first.  Additions under
      other names do not affect it. */
  lemma {:induction false} AccumulateEntry(m: map<string, Value>, adds: seq<(string, Value)>, name: string)
    ensures name in Accumulate(m, adds) <==> name in m || ValuesFor(adds, name) != []
    ensures name in Accumulate(m, adds)
            ==> Accumulate(m, adds)[name] == Combined(Prior(m, name) + ValuesFor(adds, name))
    decreases |adds|
  {
    if adds == [] {
      assert Prior(m, name) + [] == Prior(m, name);
    } else {
      var (n0, v0) := adds[0];
      AccumulateEntry(Merged(m, n0, v0), adds[1..], name);
      PriorStep(m, n0, v0, name, ValuesFor(adds[1..], name));
    }
  }

  /** One addition moves its value from the pending values into the entry. */
  lemma PriorStep(m: map<string, Value>, n0: string, v0: Value, name: string, rest: seq<Value>)
    ensures var before := Prior(m, name) + ((if n0 == name then [v0] else []) + rest);
            var after := Prior(Merged(m, n0, v0), name) + rest;
            && (name in Merged(m, n0, v0) <==> name in m || n0 == name)
            && (before == [] <==> after == [])
            && (before != [] ==> Combined(after) == Combined(before))
  {
    var m' := Merged(m, n0, v0);
    if n0 == name {
      PriorSame(m, name, v0, rest);
    } else {
      assert Prior(m', name) == Prior(m, name);
      assert [] + rest == rest;
    }
  }

  lemma PriorSame(m: map<string, Value>, name: string, v0: Value, rest: seq<Value>)
    ensures Prior(Merged(m, name, v0), name) + rest != []
    ensures Combined(Prior(Merged(m, name, v0), name) + rest) == Combined(Prior(m, name) + ([v0] + rest))
  {
    var m' := Merged(m, name, v0);
    if name in m {
      var p := m[name];
      ContributionsPair(p, v0);
      assert Prior(m', name) == [Arr(Contributions([p, v0]))];
      CombinedCollapse([p, v0], rest);
      assert Prior(m, name) + ([v0] + rest) == [p, v0] + rest;
    } else {
      assert Prior(m', name) == [v0];
      assert Prior(m, name) + ([v0] + rest) == Prior(m', name) + rest;
    }
  }

  /** Adding under two different names gives the same entries in either order. */
  lemma MergedCommute(m: map<string, Value>, a: string, x: Value, b: string, y: Value)
    requires a != b
    ensures Merged(Merged(m, a, x), b, y) == Merged(Merged(m, b, y), a, x)
  {
  }

  /** Additions made one after another accumulate as one sequence of additions. */
  lemma {:induction false} AccumulateAppend(m: map<string, Value>, a: seq<(string, Value)>, b: seq<(string, Value)>)
    ensures Accumulate(m, a + b) == Accumulate(Accumulate(m, a), b)
    decreases |a|
  {
    if a == [] {
      assert a + b == b;
    } else {
      assert (a + b)[0] == a[0] && (a + b)[1..] == a[1..] + b;
      AccumulateAppend(Merged(m, a[0].0, a[0].1), a[1..], b);
    }
  }
}
