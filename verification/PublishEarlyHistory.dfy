/**
 Histories of runs of the publish-early recipe, in which each run finds what earlier ones have
 published: published values never change, and for which sections and keys this is so.
 */
module PublishEarlyHistory {
  import opened Common
  import opened PublishEarly
  import opened PublishEarlyRuns

  /** A history of runs: `published[i]` is what run i finds. After a run that succeeds, the
      master has what was published; after one that fails, it is unchanged. */
  ghost predicate History<S, K(!new), O(!new), W(!new)>(groups: seq<Group<S, K, O>>, published: seq<map<K, W>>,
                                                        generators: seq<Generator<S, O, W>>) {
    && |published| == |generators| + 1
    && forall i | 0 <= i < |generators| ::
         match Run(groups, published[i], generators[i])
         case None => Agree(published[i + 1], published[i], AllKeys(groups))
         case Some(out) =>
           Agree(published[i + 1], if out.publish then out.values else published[i], AllKeys(groups))
  }

  // --- Where a value comes from ---

  /** The key can be generated in this section and in no later one. */
  predicate LastFirst<S, K(==), O(==)>(groups: seq<Group<S, K, O>>, i: nat, key: K) {
    i < |groups| && key in Keys(Firsts(groups[i].pairs))
    && forall j | i < j < |groups| :: key !in Keys(Firsts(groups[j].pairs))
  }

  lemma {:induction false} LastFirstExists<S, K(!new), O(!new)>(groups: seq<Group<S, K, O>>, key: K)
    requires key in FirstKeys(groups)
    ensures exists i: nat :: LastFirst(groups, i, key)
    decreases |groups|
  {
    var last := |groups| - 1;
    if key in Keys(Firsts(groups[last].pairs)) {
      assert LastFirst(groups, last, key);
    } else {
      LastFirstExists(groups[..last], key);
      var i: nat :| LastFirst(groups[..last], i, key);
      forall j | i < j < |groups| ensures key !in Keys(Firsts(groups[j].pairs)) {
        if j < last { assert groups[j] == groups[..last][j]; }
      }
      assert LastFirst(groups, i, key);
    }
  }

  /** What the section of a group ends with. */
  function SectionOf<S, K(==), O(==), W>(g: Group<S, K, O>, published: map<K, W>,
                                         generate: Generator<S, O, W>): Option<map<O, W>> {
    generate(g.section, Override(g.pairs, published))
  }

  lemma {:induction false} AllSucceed<S, K(!new), O(!new), W(!new)>(groups: seq<Group<S, K, O>>, published: map<K, W>,
                                                                   generate: Generator<S, O, W>, i: nat)
    requires Run(groups, published, generate).Some? && i < |groups|
    ensures SectionOf(groups[i], published, generate).Some?
    decreases |groups|
  {
    if i < |groups| - 1 { AllSucceed(groups[..|groups| - 1], published, generate, i); }
  }

  lemma CollectFirst<K(!new), O(!new), W>(pairs: seq<Pair<K, O>>, section: map<O, W>, p: Pair<K, O>)
    requires DistinctKeys(pairs) && p in Firsts(pairs) && p.option in section
    ensures Collect(pairs, section).values.Keys <= Keys(Firsts(pairs))
    ensures p.key in Collect(pairs, section).values && Collect(pairs, section).values[p.key] == section[p.option]
  {
    FirstsAre(pairs);
    CollectOfFirsts(pairs, section);
    CollectIs(Firsts(pairs), section);
  }

  lemma CollectOnlyFirsts<K(!new), O(!new), W>(pairs: seq<Pair<K, O>>, section: map<O, W>)
    requires DistinctKeys(pairs)
    ensures Collect(pairs, section).values.Keys <= Keys(Firsts(pairs))
  {
    FirstsAre(pairs);
    CollectOfFirsts(pairs, section);
    CollectIs(Firsts(pairs), section);
  }

  lemma {:induction false} KeyedAt<S, K(!new), O(!new)>(groups: seq<Group<S, K, O>>, i: nat)
    requires Keyed(groups) && i < |groups|
    ensures DistinctKeys(groups[i].pairs)
    decreases |groups|
  {
    if i < |groups| - 1 { KeyedAt(groups[..|groups| - 1], i); }
  }

  /** A value is that of the last section that can generate it. */
  lemma {:induction false} ValueIsOfLast<S, K(!new), O(!new), W(!new)>(groups: seq<Group<S, K, O>>,
      published: map<K, W>,
                                                                      generate: Generator<S, O, W>, i: nat,
                                                                      p: Pair<K, O>)
    requires Keyed(groups) && Run(groups, published, generate).Some? && LastFirst(groups, i, p.key)
             && p in Firsts(groups[i].pairs)
    requires SectionOf(groups[i], published, generate).Some?
             && p.option in SectionOf(groups[i], published, generate).value
    ensures var values := Run(groups, published, generate).value.values;
            p.key in values && values[p.key] == SectionOf(groups[i], published, generate).value[p.option]
    decreases |groups|
  {
    var last := |groups| - 1;
    var front, g := groups[..last], groups[last];
    var section := SectionOf(g, published, generate).value;
    if i == last {
      CollectFirst(g.pairs, section, p);
    } else {
      assert LastFirst(front, i, p.key) by {
        forall j | i < j < last ensures p.key !in Keys(Firsts(front[j].pairs)) { assert front[j] == groups[j]; }
      }
      ValueIsOfLast(front, published, generate, i, p);
      CollectOnlyFirsts(g.pairs, section);
    }
  }

  /** The option of a pair is overridden by its key unless a later pair overrides it. */
  lemma {:induction false} OverriddenAt<K(!new), O(!new), W>(pairs: seq<Pair<K, O>>, published: map<K, W>, x: nat)
    requires x < |pairs| && pairs[x].key in published
    requires forall y | x < y < |pairs| && pairs[y].option == pairs[x].option :: pairs[y].key !in published
    ensures pairs[x].option in Override(pairs, published)
            && Override(pairs, published)[pairs[x].option] == published[pairs[x].key]
    decreases |pairs|
  {
    var last := |pairs| - 1;
    if x < last {
      var front := pairs[..last];
      forall y | x < y < last && front[y].option == front[x].option ensures front[y].key !in published {
        assert front[y] == pairs[y];
      }
      OverriddenAt(front, published, x);
    }
  }

  lemma {:induction false} FirstsArePairs<K(!new), O(!new)>(pairs: seq<Pair<K, O>>, p: Pair<K, O>)
    requires p in Firsts(pairs)
    ensures exists x :: 0 <= x < |pairs| && pairs[x] == p
    decreases |pairs|
  {
    if pairs != [] {
      var last := |pairs| - 1;
      if p in Firsts(pairs[..last]) {
        FirstsArePairs(pairs[..last], p);
        var x :| 0 <= x < last && pairs[..last][x] == p;
        assert pairs[x] == p;
      } else {
        assert pairs[last] == p;
      }
    }
  }

  // --- When published values are kept ---

  /** The option of pair y belongs to pair x before it. */
  predicate Shadows<K(==), O(==)>(pairs: seq<Pair<K, O>>, x: nat, y: nat)
    requires x < y < |pairs|
  {
    pairs[x].option == pairs[y].option && pairs[x] in Firsts(pairs)
  }

  /** A key whose option belongs to an earlier key can be generated nowhere, or the earlier key has
      its value from a later section. */
  predicate Stable<S, K(==), O(==)>(groups: seq<Group<S, K, O>>) {
    forall i, x, y | 0 <= i < |groups| && 0 <= x < y < |groups[i].pairs| && Shadows(groups[i].pairs, x, y) ::
      groups[i].pairs[y].key in FirstKeys(groups) ==> !LastFirst(groups, i, groups[i].pairs[x].key)
  }

  /** Every published key can be generated in some section. */
  predicate Generable<S, K(==), O(==), W>(groups: seq<Group<S, K, O>>, published: map<K, W>) {
    AllKeys(groups) * published.Keys <= FirstKeys(groups)
  }

  lemma {:induction false} KeysAt<S, K(!new), O(!new)>(groups: seq<Group<S, K, O>>, i: nat)
    requires i < |groups|
    ensures Keys(groups[i].pairs) <= AllKeys(groups) && Keys(Firsts(groups[i].pairs)) <= FirstKeys(groups)
    decreases |groups|
  {
    if i < |groups| - 1 { KeysAt(groups[..|groups| - 1], i); }
  }

  /** The override of a published key's option in the last section that can generate it. */
  lemma OwnOverride<S, K(!new), O(!new), W>(groups: seq<Group<S, K, O>>, published: map<K, W>, i: nat, key: K)
    requires Stable(groups) && Generable(groups, published) && LastFirst(groups, i, key) && key in published
    ensures exists p :: p in Firsts(groups[i].pairs) && p.key == key
                        && p.option in Override(groups[i].pairs, published)
                        && Override(groups[i].pairs, published)[p.option] == published[key]
  {
    var pairs := groups[i].pairs;
    var p :| p in Firsts(pairs) && p.key == key;
    FirstsArePairs(pairs, p);
    var x :| 0 <= x < |pairs| && pairs[x] == p;
    forall y | x < y < |pairs| && pairs[y].option == pairs[x].option ensures pairs[y].key !in published {
      KeysAt(groups, i);
      assert pairs[y] in pairs && pairs[y].key in Keys(pairs);
      assert Shadows(pairs, x, y) && pairs[y].key !in FirstKeys(groups);
      assert pairs[y].key in AllKeys(groups) && pairs[y].key !in AllKeys(groups) * published.Keys;
    }
    OverriddenAt(pairs, published, x);
  }

  lemma StableValue<S(!new), K(!new), O(!new), W(!new)>(groups: seq<Group<S, K, O>>, published: map<K, W>,
                                                        generate: Generator<S, O, W>,
                                                       i: nat, k: K)
    requires Keyed(groups) && Stable(groups) && Generable(groups, published) && LastFirst(groups, i, k)
             && k in published
    requires Keeps(generate) && Run(groups, published, generate).Some?
    ensures var values := Run(groups, published, generate).value.values; k in values && values[k] == published[k]
  {
    OwnOverride(groups, published, i, k);
    var over := Override(groups[i].pairs, published);
    var p :| p in Firsts(groups[i].pairs) && p.key == k && p.option in over && over[p.option] == published[k];
    AllSucceed(groups, published, generate, i);
    assert Extends(SectionOf(groups[i], published, generate).value, over);
    ValueIsOfLast(groups, published, generate, i, p);
  }

  /** A run keeps what is published. */
  lemma StableRunKeeps<S(!new), K(!new), O(!new), W(!new)>(groups: seq<Group<S, K, O>>, published: map<K, W>,
                                                           generate: Generator<S, O, W>)
    requires Keyed(groups) && Stable(groups) && Generable(groups, published)
    requires Keeps(generate) && Run(groups, published, generate).Some?
    ensures Kept(Run(groups, published, generate).value.values, published, AllKeys(groups))
  {
    var values := Run(groups, published, generate).value.values;
    forall k | k in AllKeys(groups) && k in published ensures k in values && values[k] == published[k] {
      assert k in AllKeys(groups) * published.Keys;
      LastFirstExists(groups, k);
      var i: nat :| LastFirst(groups, i, k);
      StableValue(groups, published, generate, i, k);
    }
  }

  lemma {:induction false} StaysGenerable<S, K(!new), O(!new), W(!new)>(groups: seq<Group<S, K, O>>,
      published: seq<map<K, W>>,
                                                                       generators: seq<Generator<S, O, W>>, i: nat)
    requires Keyed(groups) && History(groups, published, generators) && Generable(groups, published[0])
             && i <= |generators|
    ensures Generable(groups, published[i])
    decreases i
  {
    if i > 0 {
      StaysGenerable(groups, published, generators, i - 1);
      var run := Run(groups, published[i - 1], generators[i - 1]);
      if run.Some? { GeneratedAreFirst(groups, published[i - 1], generators[i - 1]); }
      var found := if run.Some? && run.value.publish then run.value.values else published[i - 1];
      assert Agree(published[i], found, AllKeys(groups));
      forall k | k in AllKeys(groups) * published[i].Keys ensures k in FirstKeys(groups) {
        assert k in found;
        assert k in AllKeys(groups) * published[i - 1].Keys || k in FirstKeys(groups);
      }
    }
  }

  ghost predicate AllKeep<S(!new), O(!new), W(!new)>(generators: seq<Generator<S, O, W>>) {
    forall i | 0 <= i < |generators| :: Keeps(generators[i])
  }

  /** Each run that succeeds gives every published key its published value. */
  ghost predicate AlwaysKept<S, K(!new), O(!new), W(!new)>(groups: seq<Group<S, K, O>>, published: seq<map<K, W>>,
                                                           generators: seq<Generator<S, O, W>>)
    requires |published| == |generators| + 1
  {
    forall i | 0 <= i < |generators| && Run(groups, published[i], generators[i]).Some? ::
      Kept(Run(groups, published[i], generators[i]).value.values, published[i], AllKeys(groups))
  }

  /** In every history, with failing runs in it or not: a value, once published, never changes. */
  lemma {:induction false} PublishedForever<S(!new), K(!new), O(!new), W(!new)>(groups: seq<Group<S, K, O>>,
      published: seq<map<K, W>>,
                                                                               generators: seq<Generator<S, O, W>>,
                                                                               i: nat, j: nat, k: K)
    requires Keyed(groups) && Stable(groups) && History(groups, published, generators)
             && Generable(groups, published[0])
    requires AllKeep(generators) && i <= j <= |generators| && k in AllKeys(groups) && k in published[i]
    ensures k in published[j] && published[j][k] == published[i][k]
    decreases j
  {
    if i < j {
      PublishedForever(groups, published, generators, i, j - 1, k);
      if Run(groups, published[j - 1], generators[j - 1]).Some? {
        StaysGenerable(groups, published, generators, j - 1);
        assert Keeps(generators[j - 1]);
        StableRunKeeps(groups, published[j - 1], generators[j - 1]);
      }
    }
  }

  // --- ... and when they are not ---

  function AllOptions<S, K(==), O(==)>(groups: seq<Group<S, K, O>>): set<O> {
    if groups == [] then {} else AllOptions(groups[..|groups| - 1]) + Options(groups[|groups| - 1].pairs)
  }

  predicate DistinctSections<S(==), K, O>(groups: seq<Group<S, K, O>>) {
    forall i, j | 0 <= i < j < |groups| :: groups[i].section != groups[j].section
  }

  /** Sections that have all these options, with a value of its own in one of them. */
  function Marking<S(==), O, W>(options: set<O>, marked: S, own: W, other: W): Generator<S, O, W> {
    (s, over) => Some((map o | o in options :: if s == marked then own else other) + over)
  }

  lemma MarkingKeeps<S(!new), O(!new), W(!new)>(options: set<O>, marked: S, own: W, other: W)
    ensures Keeps(Marking(options, marked, own, other))
  {
  }

  lemma {:induction false} MarkingRuns<S, K(!new), O(!new), W(!new)>(groups: seq<Group<S, K, O>>, published: map<K, W>,
      options: set<O>,
                                                                     marked: S, own: W, other: W)
    ensures Run(groups, published, Marking(options, marked, own, other)).Some?
    decreases |groups|
  {
    if groups != [] { MarkingRuns(groups[..|groups| - 1], published, options, marked, own, other); }
  }

  lemma {:induction false} OptionsAt<S, K(!new), O(!new)>(groups: seq<Group<S, K, O>>, i: nat)
    requires i < |groups|
    ensures Options(groups[i].pairs) <= AllOptions(groups)
    decreases |groups|
  {
    if i < |groups| - 1 { OptionsAt(groups[..|groups| - 1], i); }
  }

  lemma {:induction false} NothingOverridden<K(!new), O(!new), W>(pairs: seq<Pair<K, O>>)
    ensures Override<K, O, W>(pairs, map[]) == map[]
    decreases |pairs|
  {
    if pairs != [] { NothingOverridden<K, O, W>(pairs[..|pairs| - 1]); }
  }

  /** The first run of all with such sections. */
  function FirstRun<S(==), K(==), O(==), W(==)>(groups: seq<Group<S, K, O>>, i: nat, own: W, other: W): map<K, W>
    requires i < |groups|
  {
    match Run(groups, map[], Marking(AllOptions(groups), groups[i].section, own, other))
    case None => map[]
    case Some(out) => out.values
  }

  /** The first run marks the keys that have their values from the marked section. */
  lemma FirstRunMarks<S(!new), K(!new), O(!new), W(!new)>(groups: seq<Group<S, K, O>>, i: nat, j: nat, key: K, own: W,
                                                          other: W)
    requires Keyed(groups) && DistinctSections(groups) && i < |groups| && LastFirst(groups, j, key)
    ensures var values := FirstRun(groups, i, own, other); key in values && values[key] == if i == j then own else other
  {
    var generate := Marking(AllOptions(groups), groups[i].section, own, other);
    MarkingRuns(groups, map[], AllOptions(groups), groups[i].section, own, other);
    NothingOverridden<K, O, W>(groups[j].pairs);
    FirstsAre(groups[j].pairs);
    OptionsAt(groups, j);
    var p :| p in Firsts(groups[j].pairs) && p.key == key;
    assert p.option in Options(Firsts(groups[j].pairs));
    ValueIsOfLast(groups, map[], generate, j, p);
  }

  /** The last published pair with an option overrides it. */
  lemma {:induction false} LastOverrides<K(!new), O(!new), W>(pairs: seq<Pair<K, O>>, published: map<K, W>, y: nat)
    requires y < |pairs| && pairs[y].key in published
    ensures exists z :: y <= z < |pairs| && pairs[z].option == pairs[y].option && pairs[z].key in published
                        && pairs[y].option in Override(pairs, published)
                        && Override(pairs, published)[pairs[y].option] == published[pairs[z].key]
    decreases |pairs|
  {
    var last := |pairs| - 1;
    if pairs[last].option == pairs[y].option && pairs[last].key in published {
      OverriddenAt(pairs, published, last);
    } else {
      var front := pairs[..last];
      LastOverrides(front, published, y);
      var z :| y <= z < |front| && front[z].option == front[y].option && front[z].key in published
               && front[y].option in Override(front, published)
               && Override(front, published)[front[y].option] == published[front[z].key];
      assert pairs[z] == front[z];
    }
  }

  lemma SameOptionSameFirst<K(!new), O(!new)>(pairs: seq<Pair<K, O>>, p: Pair<K, O>, q: Pair<K, O>)
    requires p in Firsts(pairs) && q in Firsts(pairs) && p.option == q.option
    ensures p == q
  {
    FirstsAre(pairs);
    var a :| 0 <= a < |Firsts(pairs)| && Firsts(pairs)[a] == p;
    var b :| 0 <= b < |Firsts(pairs)| && Firsts(pairs)[b] == q;
    assert a == b;
  }

  /** A pair that another one shadows is no first one. */
  lemma ShadowedIsNotFirst<K(!new), O(!new)>(pairs: seq<Pair<K, O>>, x: nat, z: nat)
    requires DistinctKeys(pairs) && x < z < |pairs| && Shadows(pairs, x, z)
    ensures pairs[z].key !in Keys(Firsts(pairs))
  {
    if pairs[z].key in Keys(Firsts(pairs)) {
      var p :| p in Firsts(pairs) && p.key == pairs[z].key;
      FirstsArePairs(pairs, p);
      var q :| 0 <= q < |pairs| && pairs[q] == p;
      assert q == z;
      SameOptionSameFirst(pairs, pairs[x], p);
      assert false;
    }
  }

  /** Where the condition fails, the second run gives a key another value than the first. */
  lemma SecondRunChanges<S(!new), K(!new), O(!new), W(!new)>(groups: seq<Group<S, K, O>>, i: nat, x: nat, y: nat,
      own: W, other: W)
    requires Keyed(groups) && DistinctSections(groups) && own != other
    requires i < |groups| && x < y < |groups[i].pairs| && Shadows(groups[i].pairs, x, y)
    requires groups[i].pairs[y].key in FirstKeys(groups) && LastFirst(groups, i, groups[i].pairs[x].key)
    ensures var generate := Marking(AllOptions(groups), groups[i].section, own, other);
      var first := FirstRun(groups, i, own, other);
      Run(groups, first, generate).Some? && !Kept(Run(groups, first, generate).value.values, first, AllKeys(groups))
  {
    var generate, pairs := Marking(AllOptions(groups), groups[i].section, own, other), groups[i].pairs;
    var a := pairs[x].key;
    var first := FirstRun(groups, i, own, other);
    MarkingRuns(groups, first, AllOptions(groups), groups[i].section, own, other);
    KeyedAt(groups, i);
    KeysAt(groups, i);
    FirstRunMarks(groups, i, i, a, own, other);
    LastFirstExists(groups, pairs[y].key);
    var j: nat :| LastFirst(groups, j, pairs[y].key);
    FirstRunMarks(groups, i, j, pairs[y].key, own, other);
    LastOverrides(pairs, first, y);
    var z :| y <= z < |pairs| && pairs[z].option == pairs[y].option && pairs[z].key in first
             && pairs[y].option in Override(pairs, first)
                 && Override(pairs, first)[pairs[y].option] == first[pairs[z].key];
    ShadowedIsOther(groups, i, x, z, own, other);
    ValueIsOfLast(groups, first, generate, i, pairs[x]);
    assert a in AllKeys(groups);
  }

  /** A shadowed key that the first run generates has its value from another section. */
  lemma ShadowedIsOther<S(!new), K(!new), O(!new), W(!new)>(groups: seq<Group<S, K, O>>, i: nat, x: nat, z: nat,
                                                            own: W, other: W)
    requires Keyed(groups) && DistinctSections(groups) && i < |groups| && x < z < |groups[i].pairs|
             && Shadows(groups[i].pairs, x, z)
    requires groups[i].pairs[z].key in FirstRun(groups, i, own, other)
    ensures FirstRun(groups, i, own, other)[groups[i].pairs[z].key] == other
  {
    var generate, key := Marking(AllOptions(groups), groups[i].section, own, other), groups[i].pairs[z].key;
    MarkingRuns(groups, map[], AllOptions(groups), groups[i].section, own, other);
    GeneratedAreFirst(groups, map[], generate);
    LastFirstExists(groups, key);
    var j: nat :| LastFirst(groups, j, key);
    KeyedAt(groups, i);
    ShadowedIsNotFirst(groups[i].pairs, x, z);
    FirstRunMarks(groups, i, j, key, own, other);
  }

  /** In every history that starts with generable keys only, as when nothing is published, and with
      sections that keep what is overridden, each run gives every published key its value, if
      and only if the sections are stable. */
  lemma AlwaysKeptExactly<S(!new), K(!new), O(!new), W(!new)>(groups: seq<Group<S, K, O>>, own: W, other: W)
    requires Keyed(groups) && DistinctSections(groups) && own != other
    ensures (forall published: seq<map<K, W>>, generators: seq<Generator<S, O, W>> |
               History(groups, published, generators) && Generable(groups, published[0]) && AllKeep(generators) ::
               AlwaysKept(groups, published, generators))
       <==> Stable(groups)
  {
    if Stable(groups) {
      forall published: seq<map<K, W>>, generators: seq<Generator<S, O, W>> |
        History(groups, published, generators) && Generable(groups, published[0]) && AllKeep(generators)
        ensures AlwaysKept(groups, published, generators)
      {
        StableHistoryKeeps(groups, published, generators);
      }
    } else {
      var i, x, y :| 0 <= i < |groups| && 0 <= x < y < |groups[i].pairs| && Shadows(groups[i].pairs, x, y)
                     && groups[i].pairs[y].key in FirstKeys(groups) && LastFirst(groups, i, groups[i].pairs[x].key);
      UnstableHistory(groups, i, x, y, own, other);
    }
  }

  lemma StableHistoryKeeps<S(!new), K(!new), O(!new), W(!new)>(groups: seq<Group<S, K, O>>, published: seq<map<K, W>>,
                                                              generators: seq<Generator<S, O, W>>)
    requires Keyed(groups) && Stable(groups) && History(groups, published, generators)
    requires Generable(groups, published[0]) && AllKeep(generators)
    ensures AlwaysKept(groups, published, generators)
  {
    forall i | 0 <= i < |generators| && Run(groups, published[i], generators[i]).Some?
      ensures Kept(Run(groups, published[i], generators[i]).value.values, published[i], AllKeys(groups))
    {
      StaysGenerable(groups, published, generators, i);
      assert Keeps(generators[i]);
      StableRunKeeps(groups, published[i], generators[i]);
    }
  }

  /** A history of two runs, of which the first publishes. */
  lemma TwoRuns<S(!new), K(!new), O(!new), W(!new)>(groups: seq<Group<S, K, O>>, none: map<K, W>, first: map<K, W>,
                                                    generate: Generator<S, O, W>)
    returns (published: seq<map<K, W>>, generators: seq<Generator<S, O, W>>)
    requires Run(groups, none, generate) == Some(Outcome(first, true)) && Run(groups, first, generate).Some?
             && Keeps(generate)
    ensures History(groups, published, generators) && AllKeep(generators)
    ensures |generators| == 2 && published[0] == none && published[1] == first && generators[1] == generate
  {
    var next := Run(groups, first, generate).value;
    published := [none, first, if next.publish then next.values else first];
    generators := [generate, generate];
  }

  /** The first run publishes and the second does not keep it. */
  lemma UnstableHistory<S(!new), K(!new), O(!new), W(!new)>(groups: seq<Group<S, K, O>>, i: nat, x: nat, y: nat,
                                                            own: W, other: W)
    requires Keyed(groups) && DistinctSections(groups) && own != other
    requires i < |groups| && x < y < |groups[i].pairs| && Shadows(groups[i].pairs, x, y)
    requires groups[i].pairs[y].key in FirstKeys(groups) && LastFirst(groups, i, groups[i].pairs[x].key)
    ensures exists published: seq<map<K, W>>, generators: seq<Generator<S, O, W>> ::
      History(groups, published, generators) && Generable(groups, published[0]) && AllKeep(generators)
      && !AlwaysKept(groups, published, generators)
  {
    var generate := Marking(AllOptions(groups), groups[i].section, own, other);
    var first := FirstRun(groups, i, own, other);
    SecondRunChanges(groups, i, x, y, own, other);
    FirstRunPublishes(groups, i, own, other);
    MarkingKeeps(AllOptions(groups), groups[i].section, own, other);
    var none: map<K, W> := map[];
    var published, generators := TwoRuns(groups, none, first, generate);
    assert Generable(groups, published[0]);
    assert !AlwaysKept(groups, published, generators);
  }

  lemma FirstRunPublishes<S(!new), K(!new), O(!new), W(!new)>(groups: seq<Group<S, K, O>>, i: nat, own: W, other: W)
    requires Keyed(groups) && DistinctSections(groups) && i < |groups| && FirstKeys(groups) != {}
    ensures Run(groups, map[], Marking(AllOptions(groups), groups[i].section, own, other))
         == Some(Outcome(FirstRun(groups, i, own, other), true))
  {
    var none: map<K, W> := map[];
    var generate := Marking(AllOptions(groups), groups[i].section, own, other);
    MarkingRuns(groups, none, AllOptions(groups), groups[i].section, own, other);
    NothingIsSettled(groups, none);
    SilentRunAgrees(groups, none, generate);
    var key :| key in FirstKeys(groups);
    FirstKeysAre(groups);
    LastFirstExists(groups, key);
    var j: nat :| LastFirst(groups, j, key);
    FirstRunMarks(groups, i, j, key, own, other);
    assert key in AllKeys(groups);
  }

  lemma {:induction false} NothingIsSettled<S, K(!new), O(!new), W(!new)>(groups: seq<Group<S, K, O>>, none: map<K, W>)
    requires none == map[]
    ensures Settled(groups, none)
    decreases |groups|
  {
    if groups != [] { NothingIsSettled(groups[..|groups| - 1], none); }
  }

  // --- When later runs publish nothing ---

  /** The history starts with no key published whose option belongs to an earlier key, for
      instance with nothing published. */
  ghost predicate SettledHistory<S, K(!new), O(!new), W(!new)>(groups: seq<Group<S, K, O>>, published: seq<map<K, W>>,
      generators: seq<Generator<S, O, W>>) {
    Coherent(groups) && History(groups, published, generators) && Settled(groups, published[0])
  }

  ghost predicate AllOffer<S(!new), O(!new), W(!new)>(generators: seq<Generator<S, O, W>>, has: (S, O) -> bool) {
    forall i | 0 <= i < |generators| :: Offers(generators[i], has)
  }

  lemma SettledIsGenerable<S(!new), K(!new), O(!new), W(!new)>(groups: seq<Group<S, K, O>>, published: seq<map<K, W>>,
      generators: seq<Generator<S, O, W>>)
    requires SettledHistory(groups, published, generators)
    ensures Keyed(groups) && Stable(groups) && Generable(groups, published[0])
  {
    SettledIs(groups, published[0]);
    CoherentIsStable(groups);
  }

  lemma {:induction false} FirstAt<S, K(!new), O(!new)>(groups: seq<Group<S, K, O>>, keys: set<K>, i: nat)
    requires AreFirst(groups, keys) && i < |groups|
    ensures Keys(groups[i].pairs) * keys <= Keys(Firsts(groups[i].pairs))
    decreases |groups|
  {
    if i < |groups| - 1 { FirstAt(groups[..|groups| - 1], keys, i); }
  }

  lemma CoherentIsStable<S(!new), K(!new), O(!new)>(groups: seq<Group<S, K, O>>)
    requires Coherent(groups)
    ensures Stable(groups)
  {
    forall i, x, y | 0 <= i < |groups| && 0 <= x < y < |groups[i].pairs| && Shadows(groups[i].pairs, x, y)
      ensures groups[i].pairs[y].key !in FirstKeys(groups)
    {
      KeyedAt(groups, i);
      FirstAt(groups, FirstKeys(groups), i);
      ShadowedIsNotFirst(groups[i].pairs, x, y);
      assert groups[i].pairs[y].key in Keys(groups[i].pairs);
    }
  }

  lemma AgreeKeepsSettled<S, K(!new), O(!new), W(!new)>(groups: seq<Group<S, K, O>>, before: map<K, W>,
                                                        after: map<K, W>)
    requires Coherent(groups) && Agree(after, before, AllKeys(groups))
             && AllKeys(groups) * before.Keys <= FirstKeys(groups)
    ensures Settled(groups, after)
  {
    SettledIs(groups, after);
    forall k | k in AllKeys(groups) * after.Keys ensures k in FirstKeys(groups) {
      assert k in AllKeys(groups) * before.Keys;
    }
  }

  /** It then stays so: no run publishes such a key. */
  lemma {:induction false} StaysSettled<S, K(!new), O(!new), W(!new)>(groups: seq<Group<S, K, O>>,
      published: seq<map<K, W>>, generators: seq<Generator<S, O, W>>, i: nat)
    requires SettledHistory(groups, published, generators) && i <= |generators|
    ensures Settled(groups, published[i])
    decreases i
  {
    if i > 0 {
      StaysSettled(groups, published, generators, i - 1);
      SettledIs(groups, published[i - 1]);
      match Run(groups, published[i - 1], generators[i - 1])
      case None => AgreeKeepsSettled(groups, published[i - 1], published[i]);
      case Some(out) =>
        GeneratedAreFirst(groups, published[i - 1], generators[i - 1]);
        AgreeKeepsSettled(groups, if out.publish then out.values else published[i - 1], published[i]);
    }
  }

  /** Either way, after a run that succeeds the master has the generated values. */
  lemma SuccessIsFedBack<S, K(!new), O(!new), W(!new)>(groups: seq<Group<S, K, O>>, published: seq<map<K, W>>,
                                                       generators: seq<Generator<S, O, W>>, i: nat)
    requires SettledHistory(groups, published, generators) && i < |generators|
    requires Run(groups, published[i], generators[i]).Some?
    ensures Agree(published[i + 1], Run(groups, published[i], generators[i]).value.values, AllKeys(groups))
  {
    StaysSettled(groups, published, generators, i);
    SilentRunAgrees(groups, published[i], generators[i]);
  }

  lemma SettledForever<S(!new), K(!new), O(!new), W(!new)>(groups: seq<Group<S, K, O>>, published: seq<map<K, W>>,
                                                          generators: seq<Generator<S, O, W>>, i: nat, j: nat)
    requires SettledHistory(groups, published, generators) && AllKeep(generators) && i <= j <= |generators|
    ensures forall k | k in AllKeys(groups) && k in published[i] ::
              k in published[j] && published[j][k] == published[i][k]
  {
    SettledIsGenerable(groups, published, generators);
    forall k | k in AllKeys(groups) && k in published[i]
      ensures k in published[j] && published[j][k] == published[i][k]
    {
      PublishedForever(groups, published, generators, i, j, k);
    }
  }

  /** What a run that succeeds generates is published from then on. */
  lemma GeneratedForever<S(!new), K(!new), O(!new), W(!new)>(groups: seq<Group<S, K, O>>, published: seq<map<K, W>>,
                                                            generators: seq<Generator<S, O, W>>, i: nat, j: nat)
    requires SettledHistory(groups, published, generators) && AllKeep(generators) && i < j <= |generators|
    requires Run(groups, published[i], generators[i]).Some?
    ensures var values := Run(groups, published[i], generators[i]).value.values;
      values.Keys <= AllKeys(groups) && forall k | k in values :: k in published[j] && published[j][k] == values[k]
  {
    GeneratedAreFirst(groups, published[i], generators[i]);
    FirstKeysAre(groups);
    SuccessIsFedBack(groups, published, generators, i);
    SettledForever(groups, published, generators, i + 1, j);
  }

  /** A run of the history keeps what is published, and says whether that is all. */
  lemma SettledRun<S(!new), K(!new), O(!new), W(!new)>(groups: seq<Group<S, K, O>>, published: seq<map<K, W>>,
                                                      generators: seq<Generator<S, O, W>>, j: nat)
    requires SettledHistory(groups, published, generators) && AllKeep(generators) && j < |generators|
    requires Run(groups, published[j], generators[j]).Some?
    ensures var out := Run(groups, published[j], generators[j]).value;
      && Kept(out.values, published[j], AllKeys(groups))
      && (Agree(out.values, published[j], AllKeys(groups)) ==> !out.publish)
  {
    StaysSettled(groups, published, generators, j);
    assert Keeps(generators[j]);
    RunKeepsPublished(groups, published[j], generators[j]);
    PublishesExactlyChanges(groups, published[j], generators[j]);
  }

  /** After the first run that succeeds, no later run publishes anything, and every later run
      that succeeds generates the same values. */
  lemma PublishesOnce<S(!new), K(!new), O(!new), W(!new)>(groups: seq<Group<S, K, O>>, published: seq<map<K, W>>,
                                                         generators: seq<Generator<S, O, W>>, has: (S, O) -> bool,
                                                         i: nat, j: nat)
    requires SettledHistory(groups, published, generators) && i < j < |generators|
    requires AllKeep(generators) && AllOffer(generators, has)
    requires Run(groups, published[i], generators[i]).Some? && Run(groups, published[j], generators[j]).Some?
    ensures !Run(groups, published[j], generators[j]).value.publish
    ensures Run(groups, published[j], generators[j]).value.values
            == Run(groups, published[i], generators[i]).value.values
  {
    LaterKeys(groups, published, generators, has, i, j);
    GeneratedForever(groups, published, generators, i, j);
    SettledRun(groups, published, generators, j);
    SameValues(Run(groups, published[i], generators[i]).value.values,
        Run(groups, published[j], generators[j]).value.values,
               published[j], AllKeys(groups));
  }

  lemma SameValues<K(!new), W(!new)>(first: map<K, W>, later: map<K, W>, before: map<K, W>, keys: set<K>)
    requires first.Keys == later.Keys && first.Keys <= keys
    requires forall k | k in first :: k in before && before[k] == first[k]
    requires forall k | k in keys && k in before :: k in later && later[k] == before[k]
    ensures later == first && Agree(later, before, keys)
  {
  }

  lemma SettledKeys<S(!new), K(!new), O(!new), W(!new)>(groups: seq<Group<S, K, O>>, published: seq<map<K, W>>,
                                                       generators: seq<Generator<S, O, W>>, has: (S, O) -> bool, i: nat)
    requires SettledHistory(groups, published, generators) && AllOffer(generators, has) && i < |generators|
    requires Run(groups, published[i], generators[i]).Some?
    ensures Run(groups, published[i], generators[i]).value.values.Keys
         == (AllKeys(groups) * published[i].Keys) + OfferedKeys(groups, has)
  {
    StaysSettled(groups, published, generators, i);
    assert Offers(generators[i], has);
    RunGenerates(groups, published[i], generators[i], has);
  }

  /** A run that succeeds after another one generates the same keys. */
  lemma LaterKeys<S(!new), K(!new), O(!new), W(!new)>(groups: seq<Group<S, K, O>>, published: seq<map<K, W>>,
                                                     generators: seq<Generator<S, O, W>>, has: (S, O) -> bool, i: nat,
                                                     j: nat)
    requires SettledHistory(groups, published, generators) && i < j < |generators|
    requires AllKeep(generators) && AllOffer(generators, has)
    requires Run(groups, published[i], generators[i]).Some? && Run(groups, published[j], generators[j]).Some?
    ensures Run(groups, published[i], generators[i]).value.values.Keys
         == Run(groups, published[j], generators[j]).value.values.Keys
  {
    SettledKeys(groups, published, generators, has, i);
    SettledKeys(groups, published, generators, has, j);
    PublishedWasOffered(groups, published, generators, has, i, j);
    SettledForever(groups, published, generators, i, j);
    SameKeys(AllKeys(groups), published[i].Keys, published[j].Keys, OfferedKeys(groups, has));
  }

  lemma SameKeys<K(!new)>(keys: set<K>, before: set<K>, after: set<K>, offered: set<K>)
    requires forall k | k in keys && k in before :: k in after
    requires forall k | k in keys && k in after :: k in before || k in offered
    ensures (keys * before) + offered == (keys * after) + offered
  {
  }

  /** No run brings in a key that is neither published before nor offered. */
  lemma {:induction false} PublishedWasOffered<S(!new), K(!new), O(!new), W(!new)>(groups: seq<Group<S, K, O>>,
      published: seq<map<K, W>>, generators: seq<Generator<S, O, W>>, has: (S, O) -> bool, i: nat, j: nat)
    requires SettledHistory(groups, published, generators) && i <= j <= |generators|
    requires AllOffer(generators, has)
    ensures forall k | k in AllKeys(groups) && k in published[j] :: k in published[i] || k in OfferedKeys(groups, has)
    decreases j
  {
    if i < j {
      PublishedWasOffered(groups, published, generators, has, i, j - 1);
      if Run(groups, published[j - 1], generators[j - 1]).Some? {
        SuccessIsFedBack(groups, published, generators, j - 1);
        SettledKeys(groups, published, generators, has, j - 1);
      }
    }
  }
}
