/** What one run of the publish-early recipe generates, keeps and publishes. */
module PublishEarlyRuns {
  import opened Common
  import opened PublishEarly

  // --- Keys that can be generated ---

  /** The keys of the pairs that are the first with their option. */
  function FirstKeys<S, K(==), O(==)>(groups: seq<Group<S, K, O>>): set<K> {
    if groups == [] then {}
    else FirstKeys(groups[..|groups| - 1]) + Keys(Firsts(groups[|groups| - 1].pairs))
  }

  /** In no section is a key published whose option belongs to an earlier key. */
  predicate Settled<S, K(==), O(==), W>(groups: seq<Group<S, K, O>>, published: map<K, W>) {
    groups == [] || (Settled(groups[..|groups| - 1], published) && Unshadowed(groups[|groups| - 1].pairs, published))
  }

  lemma {:induction false} FirstKeysAre<S, K(!new), O(!new)>(groups: seq<Group<S, K, O>>)
    ensures FirstKeys(groups) <= AllKeys(groups)
    decreases |groups|
  {
    if groups != [] {
      FirstKeysAre(groups[..|groups| - 1]);
      FirstsAre(groups[|groups| - 1].pairs);
    }
  }

  /** These keys, where they occur, are the first ones with their option. */
  predicate AreFirst<S, K(==), O(==)>(groups: seq<Group<S, K, O>>, keys: set<K>) {
    groups == [] || (
      var pairs := groups[|groups| - 1].pairs;
      AreFirst(groups[..|groups| - 1], keys) && Keys(pairs) * keys <= Keys(Firsts(pairs)))
  }

  /** A key that can be generated in one section can be in every section it is read from, as when no
      key is read from two. */
  predicate Coherent<S, K(==), O(==)>(groups: seq<Group<S, K, O>>) {
    Keyed(groups) && AreFirst(groups, FirstKeys(groups))
  }

  /** Published keys are distinct, in one section and in different ones. */
  predicate ReadOnce<S, K(==), O(==)>(groups: seq<Group<S, K, O>>) {
    groups == [] || (
      var front, pairs := groups[..|groups| - 1], groups[|groups| - 1].pairs;
      ReadOnce(front) && DistinctKeys(pairs) && Keys(pairs) !! AllKeys(front))
  }

  lemma {:induction false} OtherKeysDoNotMatter<S, K(!new), O(!new)>(groups: seq<Group<S, K, O>>, keys: set<K>,
      more: set<K>)
    requires AreFirst(groups, keys) && AllKeys(groups) !! more
    ensures AreFirst(groups, keys + more)
    decreases |groups|
  {
    if groups != [] {
      OtherKeysDoNotMatter(groups[..|groups| - 1], keys, more);
    }
  }

  lemma {:induction false} ReadOnceIsCoherent<S, K(!new), O(!new)>(groups: seq<Group<S, K, O>>)
    requires ReadOnce(groups)
    ensures Coherent(groups)
    decreases |groups|
  {
    if groups != [] {
      var front, pairs := groups[..|groups| - 1], groups[|groups| - 1].pairs;
      ReadOnceIsCoherent(front);
      FirstKeysAre(front);
      FirstsAre(pairs);
      OtherKeysDoNotMatter(front, FirstKeys(front), Keys(Firsts(pairs)));
    }
  }

  /** ... that is, every published key is one that can be generated. */
  lemma {:induction false} SettledMeans<S, K(!new), O(!new), W(!new)>(groups: seq<Group<S, K, O>>,
      published: map<K, W>, firsts: set<K>)
    requires Keyed(groups) && AreFirst(groups, firsts) && FirstKeys(groups) <= firsts
    ensures Settled(groups, published) <==> AllKeys(groups) * published.Keys <= firsts
    decreases |groups|
  {
    if groups != [] {
      var front, pairs := groups[..|groups| - 1], groups[|groups| - 1].pairs;
      SettledMeans(front, published, firsts);
      UnshadowedIs(pairs, published);
      FirstsAre(pairs);
      SplitUnion(AllKeys(front), Keys(pairs), published.Keys, firsts, Keys(Firsts(pairs)));
    }
  }

  lemma SplitUnion<K(!new)>(a: set<K>, b: set<K>, published: set<K>, firsts: set<K>, last: set<K>)
    requires last <= firsts && b * firsts <= last
    ensures (a + b) * published <= firsts <==> a * published <= firsts && b * published <= last
  {
    if (a + b) * published <= firsts {
      forall k | k in a * published ensures k in firsts { assert k in (a + b) * published; }
      forall k | k in b * published ensures k in last { assert k in (a + b) * published; }
    }
  }

  lemma SettledIs<S, K(!new), O(!new), W(!new)>(groups: seq<Group<S, K, O>>, published: map<K, W>)
    requires Coherent(groups)
    ensures Settled(groups, published) <==> AllKeys(groups) * published.Keys <= FirstKeys(groups)
  {
    SettledMeans(groups, published, FirstKeys(groups));
  }

  /** Whatever its generators do, a run generates no other key. */
  lemma {:induction false} GeneratedAreFirst<S, K(!new), O(!new), W>(groups: seq<Group<S, K, O>>, published: map<K, W>,
      generate: Generator<S, O, W>)
    requires Keyed(groups) && Run(groups, published, generate).Some?
    ensures Run(groups, published, generate).value.values.Keys <= FirstKeys(groups)
    decreases |groups|
  {
    if groups != [] {
      var front, g := groups[..|groups| - 1], groups[|groups| - 1];
      GeneratedAreFirst(front, published, generate);
      var section := generate(g.section, Override(g.pairs, published)).value;
      CollectOfFirsts(g.pairs, section);
      FirstsAre(g.pairs);
      CollectIs(Firsts(g.pairs), section);
    }
  }

  // --- One run ---

  lemma AgreeOnUnion<K(!new), W>(a: map<K, W>, b: map<K, W>, published: map<K, W>, aKeys: set<K>, bKeys: set<K>)
    requires a.Keys <= aKeys && b.Keys <= bKeys
    requires Agree(a, published, aKeys) && Agree(b, published, bKeys)
    ensures Agree(a + b, published, aKeys + bKeys)
  {
    forall k | k in aKeys + bKeys
      ensures (k in a + b <==> k in published) && (k in a + b ==> (a + b)[k] == published[k])
    {
      if k in bKeys {
        assert k in b <==> k in published;
      } else {
        assert k in aKeys && k !in b;
      }
    }
  }

  lemma AgreeOnFirsts<K(!new), O(!new), W>(pairs: seq<Pair<K, O>>, values: map<K, W>, published: map<K, W>)
    requires DistinctKeys(pairs) && Unshadowed(pairs, published) && values.Keys <= Keys(Firsts(pairs))
    ensures Agree(values, published, Keys(pairs)) <==> Agree(values, published, Keys(Firsts(pairs)))
  {
    UnshadowedIs(pairs, published);
    FirstsAre(pairs);
    if Agree(values, published, Keys(Firsts(pairs))) {
      forall k | k in Keys(pairs)
        ensures (k in values <==> k in published) && (k in values ==> values[k] == published[k])
      {
        assert k in published ==> k in Keys(pairs) * published.Keys;
      }
    }
  }

  /** One group: nothing new was taken exactly when its values are the published ones. */
  lemma GroupPublishesChanges<K(!new), O(!new), W>(pairs: seq<Pair<K, O>>, published: map<K, W>, section: map<O, W>)
    requires DistinctKeys(pairs) && Unshadowed(pairs, published)
    ensures var c := Collect(pairs, section);
      && c.values.Keys <= Keys(pairs)
      && (c.taken == Override(pairs, published) <==> Agree(c.values, published, Keys(pairs)))
  {
    FirstsAre(pairs);
    CollectOfFirsts(pairs, section);
    OverrideOfFirsts(pairs, published);
    CollectIs(Firsts(pairs), section);
    TakenIsOverride(Firsts(pairs), published, section);
    ValuesArePublished(Firsts(pairs), published, section);
    AgreeOnFirsts(pairs, Collect(pairs, section).values, published);
  }

  /** A run that does not publish has generated what is published. */
  lemma {:induction false} SilentRunAgrees<S, K(!new), O(!new), W(!new)>(groups: seq<Group<S, K, O>>,
      published: map<K, W>, generate: Generator<S, O, W>)
    requires Keyed(groups) && Settled(groups, published) && Run(groups, published, generate).Some?
    ensures var out := Run(groups, published, generate).value;
      && out.values.Keys <= AllKeys(groups)
      && (!out.publish ==> Agree(out.values, published, AllKeys(groups)))
    decreases |groups|
  {
    if groups != [] {
      var front, g := groups[..|groups| - 1], groups[|groups| - 1];
      SilentRunAgrees(front, published, generate);
      var out, before := Run(groups, published, generate).value, Run(front, published, generate).value;
      var section := generate(g.section, Override(g.pairs, published)).value;
      GroupPublishesChanges(g.pairs, published, section);
      if !out.publish {
        AgreeOnUnion(before.values, Collect(g.pairs, section).values, published, AllKeys(front), Keys(g.pairs));
      }
    }
  }

  // --- Several runs ---

  /** Generators keep an option that is overridden. */
  ghost predicate Keeps<S(!new), O(!new), W(!new)>(generate: Generator<S, O, W>) {
    forall s, over :: match generate(s, over)
      case Some(section) => Extends(section, over)
      case None => true
  }

  /** Besides what is overridden, a section always has the same options. */
  ghost predicate Offers<S(!new), O(!new), W(!new)>(generate: Generator<S, O, W>, has: (S, O) -> bool) {
    forall s, over :: match generate(s, over)
      case Some(section) => forall o :: o in section <==> o in over || has(s, o)
      case None => true
  }

  /** The published keys among these have their values. */
  ghost predicate Kept<K(!new), W(!new)>(values: map<K, W>, published: map<K, W>, keys: set<K>) {
    forall k | k in keys && k in published :: k in values && values[k] == published[k]
  }

  ghost predicate Extends<O(!new), W(!new)>(section: map<O, W>, over: map<O, W>) {
    forall o | o in over :: o in section && section[o] == over[o]
  }

  /** One group whose section keeps what is overridden. */
  lemma GroupKeepsPublished<K(!new), O(!new), W(!new)>(pairs: seq<Pair<K, O>>, published: map<K, W>, section: map<O, W>)
    requires DistinctKeys(pairs) && Unshadowed(pairs, published)
    requires Extends(section, Override(pairs, published))
    ensures Kept(Collect(pairs, section).values, published, Keys(pairs))
  {
    FirstsAre(pairs);
    CollectOfFirsts(pairs, section);
    OverrideOfFirsts(pairs, published);
    UnshadowedIs(pairs, published);
    OverrideIs(Firsts(pairs), published);
    CollectIs(Firsts(pairs), section);
    forall k | k in Keys(pairs) && k in published
      ensures k in Collect(pairs, section).values && Collect(pairs, section).values[k] == published[k]
    {
      assert k in Keys(pairs) * published.Keys && k in Keys(Firsts(pairs));
      var p :| p in Firsts(pairs) && p.key == k;
      assert Overrides(p, published, Override(pairs, published));
    }
  }

  lemma KeptOnUnion<K(!new), W(!new)>(a: map<K, W>, b: map<K, W>, published: map<K, W>, aKeys: set<K>, bKeys: set<K>)
    requires a.Keys <= aKeys && b.Keys <= bKeys
    requires Kept(a, published, aKeys) && Kept(b, published, bKeys)
    ensures Kept(a + b, published, aKeys + bKeys)
  {
  }

  /** What is published is kept by a run. */
  lemma {:induction false} RunKeepsPublished<S(!new), K(!new), O(!new), W(!new)>(groups: seq<Group<S, K, O>>,
      published: map<K, W>, generate: Generator<S, O, W>)
    requires Keyed(groups) && Settled(groups, published) && Keeps(generate) && Run(groups, published, generate).Some?
    ensures Kept(Run(groups, published, generate).value.values, published, AllKeys(groups))
    decreases |groups|
  {
    if groups != [] {
      var front, g := groups[..|groups| - 1], groups[|groups| - 1];
      RunKeepsPublished(front, published, generate);
      SilentRunAgrees(front, published, generate);
      var section := generate(g.section, Override(g.pairs, published)).value;
      GroupPublishesChanges(g.pairs, published, section);
      GroupKeepsPublished(g.pairs, published, section);
      KeptOnUnion(Run(front, published, generate).value.values, Collect(g.pairs, section).values, published,
                  AllKeys(front), Keys(g.pairs));
    }
  }

  /** Some value is for a key that is not published. */
  ghost predicate HasNew<K(!new), W(!new)>(values: map<K, W>, published: map<K, W>) {
    exists k :: k in values && k !in published
  }

  /** With sections that keep what is overridden, a run that publishes has generated a new key. */
  lemma {:induction false} LoudRunHasNew<S(!new), K(!new), O(!new), W(!new)>(groups: seq<Group<S, K, O>>,
      published: map<K, W>, generate: Generator<S, O, W>)
    requires Keyed(groups) && Settled(groups, published) && Keeps(generate) && Run(groups, published, generate).Some?
    ensures var out := Run(groups, published, generate).value; out.publish ==> HasNew(out.values, published)
    decreases |groups|
  {
    if groups != [] {
      var front, g := groups[..|groups| - 1], groups[|groups| - 1];
      LoudRunHasNew(front, published, generate);
      var before := Run(front, published, generate).value;
      var section := generate(g.section, Override(g.pairs, published)).value;
      var c := Collect(g.pairs, section);
      GroupPublishesChanges(g.pairs, published, section);
      GroupKeepsPublished(g.pairs, published, section);
      if c.taken != Override(g.pairs, published) {
        var k :| k in Keys(g.pairs)
            && !((k in c.values <==> k in published) && (k in c.values ==> c.values[k] == published[k]));
        assert k in (before.values + c.values) && k !in published;
      } else if before.publish {
        var k :| k in before.values && k !in published;
        assert k in (before.values + c.values);
      }
    }
  }

  lemma NewDisagrees<K(!new), W(!new)>(values: map<K, W>, published: map<K, W>, keys: set<K>)
    requires values.Keys <= keys && HasNew(values, published)
    ensures !Agree(values, published, keys)
  {
    var k :| k in values && k !in published;
    assert k in keys;
  }

  lemma AgreeOnParts<K(!new), W>(a: map<K, W>, b: map<K, W>, published: map<K, W>, aKeys: set<K>, bKeys: set<K>)
    requires aKeys !! bKeys && a.Keys <= aKeys && b.Keys <= bKeys && Agree(a + b, published, aKeys + bKeys)
    ensures Agree(a, published, aKeys) && Agree(b, published, bKeys)
  {
    forall k | k in aKeys ensures (k in a <==> k in published) && (k in a ==> a[k] == published[k]) {
      assert k in aKeys + bKeys;
    }
    forall k | k in bKeys ensures (k in b <==> k in published) && (k in b ==> b[k] == published[k]) {
      assert k in aKeys + bKeys;
    }
  }

  /** With keys that are read once, a run that publishes has generated something else, whatever
      sections do. */
  lemma {:induction false} LoudRunDisagrees<S, K(!new), O(!new), W(!new)>(groups: seq<Group<S, K, O>>,
      published: map<K, W>, generate: Generator<S, O, W>)
    requires ReadOnce(groups) && Settled(groups, published) && Run(groups, published, generate).Some?
    ensures var out := Run(groups, published, generate).value;
            out.publish ==> !Agree(out.values, published, AllKeys(groups))
    decreases |groups|
  {
    ReadOnceIsCoherent(groups);
    if groups != [] {
      var front, g := groups[..|groups| - 1], groups[|groups| - 1];
      LoudRunDisagrees(front, published, generate);
      SilentRunAgrees(front, published, generate);
      var before := Run(front, published, generate).value;
      var section := generate(g.section, Override(g.pairs, published)).value;
      GroupPublishesChanges(g.pairs, published, section);
      if Agree(before.values + Collect(g.pairs, section).values, published, AllKeys(groups)) {
        AgreeOnParts(before.values, Collect(g.pairs, section).values, published, AllKeys(front), Keys(g.pairs));
      }
    }
  }

  /** If sections keep what is overridden or keys are read once, a run publishes if and only if what
      it generated differs from what is published. */
  lemma PublishesExactlyChanges<S(!new), K(!new), O(!new), W(!new)>(groups: seq<Group<S, K, O>>, published: map<K, W>,
      generate: Generator<S, O, W>)
    requires Keyed(groups) && (Keeps(generate) || ReadOnce(groups))
    requires Settled(groups, published) && Run(groups, published, generate).Some?
    ensures var out := Run(groups, published, generate).value;
            out.values.Keys <= AllKeys(groups) && (!out.publish <==> Agree(out.values, published, AllKeys(groups)))
  {
    var out := Run(groups, published, generate).value;
    SilentRunAgrees(groups, published, generate);
    if Keeps(generate) {
      LoudRunHasNew(groups, published, generate);
      if out.publish { NewDisagrees(out.values, published, AllKeys(groups)); }
    } else {
      LoudRunDisagrees(groups, published, generate);
    }
  }

  /** One group: every section that keeps what is overridden gives all published keys their
      values, if and only if none of them has an option that belongs to an earlier key. */
  lemma GroupKeepsPublishedExactly<K(!new), O(!new), W(!new)>(pairs: seq<Pair<K, O>>, published: map<K, W>)
    requires DistinctKeys(pairs)
    ensures (forall section: map<O, W> | Extends(section, Override(pairs, published)) ::
               Kept(Collect(pairs, section).values, published, Keys(pairs)))
       <==> Unshadowed(pairs, published)
  {
    if Unshadowed(pairs, published) {
      forall section: map<O, W> | Extends(section, Override(pairs, published))
        ensures Kept(Collect(pairs, section).values, published, Keys(pairs))
      {
        GroupKeepsPublished(pairs, published, section);
      }
    } else {
      var section := Override(pairs, published);
      assert Extends(section, section);
      FirstsAre(pairs);
      CollectOfFirsts(pairs, section);
      CollectIs(Firsts(pairs), section);
      UnshadowedIs(pairs, published);
    }
  }

  /** With one option for two keys, publishing the second makes its value that of the first, and
      publishing the first does no harm. */
  lemma SharedOption()
    ensures var pairs, second, first := [Pair("a", "x"), Pair("b", "x")], map["b" := 2], map["a" := 1];
      && Collect(pairs, Override(pairs, second)).values == map["a" := 2]
      && Collect(pairs, Override(pairs, first)).values == map["a" := 1]
  {
    var p, q := Pair("a", "x"), Pair("b", "x");
    assert [p, q] == [p] + [q] && [p] == [] + [p];
    OverrideOneMore([p], q, map["b" := 2]);
    OverrideOneMore([], p, map["b" := 2]);
    OverrideOneMore([p], q, map["a" := 1]);
    OverrideOneMore([], p, map["a" := 1]);
    assert [p, q][..1] == [p] && [p][..0] == [];
    assert Collect([p], map["x" := 2]).section == map[] && Collect([p], map["x" := 1]).section == map[];
  }

  /** The generator that adds nothing to what is overridden. */
  function Echo<S, O, W>(): Generator<S, O, W> { (s, over) => Some(over) }

  lemma {:induction false} EchoRuns<S, K, O, W>(groups: seq<Group<S, K, O>>, published: map<K, W>)
    ensures Run(groups, published, Echo()).Some?
    decreases |groups|
  {
    if groups != [] { EchoRuns(groups[..|groups| - 1], published); }
  }

  /** Every run whose sections keep what is overridden keeps what is published, if and only if no
      key is published whose option belongs to an earlier key of its section. */
  lemma KeepsPublishedExactly<S(!new), K(!new), O(!new), W(!new)>(groups: seq<Group<S, K, O>>, published: map<K, W>)
    requires Coherent(groups)
    ensures (forall generate: Generator<S, O, W> | Keeps(generate) && Run(groups, published, generate).Some? ::
               Kept(Run(groups, published, generate).value.values, published, AllKeys(groups)))
       <==> Settled(groups, published)
  {
    if Settled(groups, published) {
      forall generate: Generator<S, O, W> | Keeps(generate) && Run(groups, published, generate).Some?
        ensures Kept(Run(groups, published, generate).value.values, published, AllKeys(groups))
      {
        RunKeepsPublished(groups, published, generate);
      }
    } else {
      EchoRuns<S, K, O, W>(groups, published);
      GeneratedAreFirst(groups, published, Echo());
      SettledIs(groups, published);
      assert Keeps(Echo<S, O, W>());
    }
  }

  /** The keys whose section has their option without being overridden. */
  function OfferedIn<S, K(==), O(==)>(g: Group<S, K, O>, has: (S, O) -> bool): set<K> {
    set p | p in Firsts(g.pairs) && has(g.section, p.option) :: p.key
  }

  function OfferedKeys<S, K(==), O(==)>(groups: seq<Group<S, K, O>>, has: (S, O) -> bool): set<K> {
    if groups == [] then {}
    else OfferedKeys(groups[..|groups| - 1], has) + OfferedIn(groups[|groups| - 1], has)
  }

  lemma {:induction false} OfferedAreKeys<S, K(!new), O(!new)>(groups: seq<Group<S, K, O>>, has: (S, O) -> bool)
    ensures OfferedKeys(groups, has) <= FirstKeys(groups)
    decreases |groups|
  {
    if groups != [] { OfferedAreKeys(groups[..|groups| - 1], has); }
  }

  lemma SameKeySamePair<K, O>(pairs: seq<Pair<K, O>>, p: Pair<K, O>, q: Pair<K, O>)
    requires DistinctKeys(pairs) && p in pairs && q in pairs && p.key == q.key
    ensures p == q
  {
    var i :| 0 <= i < |pairs| && pairs[i] == p;
    var j :| 0 <= j < |pairs| && pairs[j] == q;
    assert i == j;
  }

  lemma PairGenerates<K(!new), O(!new), W(!new)>(firsts: seq<Pair<K, O>>, published: map<K, W>, section: map<O, W>,
                                                 p: Pair<K, O>, has: bool)
    requires DistinctOptions(firsts) && DistinctKeys(firsts) && p in firsts
    requires p.option in section <==> p.option in Override(firsts, published) || has
    ensures p.key in Collect(firsts, section).values <==> p.key in published || has
  {
    OverrideIs(firsts, published);
    assert Overrides(p, published, Override(firsts, published));
    CollectIs(firsts, section);
  }

  lemma OfferedPair<S, K(!new), O(!new)>(g: Group<S, K, O>, has: (S, O) -> bool, p: Pair<K, O>)
    requires DistinctKeys(Firsts(g.pairs)) && p in Firsts(g.pairs)
    ensures p.key in OfferedIn(g, has) <==> has(g.section, p.option)
  {
    forall q | q in Firsts(g.pairs) && q.key == p.key ensures q == p { SameKeySamePair(Firsts(g.pairs), p, q); }
  }

  /** One group, whose section has besides what is overridden always the same options. */
  lemma GroupGenerates<S, K(!new), O(!new), W(!new)>(g: Group<S, K, O>, published: map<K, W>, section: map<O, W>,
                                                     has: (S, O) -> bool)
    requires DistinctKeys(g.pairs) && Unshadowed(g.pairs, published)
    requires forall o :: o in section <==> o in Override(g.pairs, published) || has(g.section, o)
    ensures Collect(g.pairs, section).values.Keys == (Keys(g.pairs) * published.Keys) + OfferedIn(g, has)
  {
    var firsts := Firsts(g.pairs);
    FirstsAre(g.pairs);
    CollectOfFirsts(g.pairs, section);
    OverrideOfFirsts(g.pairs, published);
    UnshadowedIs(g.pairs, published);
    assert Collect(firsts, section).values.Keys <= Keys(firsts) by { CollectIs(firsts, section); }
    forall p | p in firsts
      ensures p.key in Collect(firsts, section).values <==> p.key in published || p.key in OfferedIn(g, has)
    {
      PairGenerates(firsts, published, section, p, has(g.section, p.option));
      OfferedPair(g, has, p);
    }
    SetOfKeys(firsts, Collect(firsts, section).values.Keys, Keys(g.pairs), published.Keys, OfferedIn(g, has));
  }

  lemma SetOfKeys<K(!new), O(!new)>(firsts: seq<Pair<K, O>>, values: set<K>, keys: set<K>, published: set<K>,
                                    offered: set<K>)
    requires values <= Keys(firsts) <= keys && offered <= Keys(firsts) && keys * published <= Keys(firsts)
    requires forall p | p in firsts :: p.key in values <==> p.key in published || p.key in offered
    ensures values == (keys * published) + offered
  {
    forall k | k in Keys(firsts) ensures k in values <==> k in published || k in offered {
      var p :| p in firsts && p.key == k;
    }
    assert forall k | k in keys * published :: k in Keys(firsts);
  }

  /** A run generates the keys that are published and those that are offered. */
  lemma {:induction false} RunGenerates<S(!new), K(!new), O(!new), W(!new)>(groups: seq<Group<S, K, O>>,
      published: map<K, W>, generate: Generator<S, O, W>, has: (S, O) -> bool)
    requires Keyed(groups) && Settled(groups, published) && Offers(generate, has)
    requires Run(groups, published, generate).Some?
    ensures Run(groups, published, generate).value.values.Keys
         == (AllKeys(groups) * published.Keys) + OfferedKeys(groups, has)
    decreases |groups|
  {
    if groups != [] {
      var front, g := groups[..|groups| - 1], groups[|groups| - 1];
      RunGenerates(front, published, generate, has);
      var section := generate(g.section, Override(g.pairs, published)).value;
      GroupGenerates(g, published, section, has);
      assert Run(groups, published, generate).value.values
          == Run(front, published, generate).value.values + Collect(g.pairs, section).values;
    }
  }
}
