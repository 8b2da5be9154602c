/**
 The publish-early recipe: values generated by other sections, published once and fed back to
 their generators in later runs. S stands for section names, K for published keys, O for
 option names and W for values.
 */
module PublishEarly {
  import opened Common

  /** The published `key` takes its value from `option` of the group's section. */
  datatype Pair<K, O> = Pair(key: K, option: O)
  datatype Group<S, K, O> = Group(section: S, pairs: seq<Pair<K, O>>)

  /** What instantiating a section gives when its options are overridden: the options it ends
      with, or None when its recipe fails. */
  type Generator<!S, !O, !W> = (S, map<O, W>) -> Option<map<O, W>>

  // --- One group ---

  /** The loop that fills `override`. */
  function Override<K(==), O(==), W>(pairs: seq<Pair<K, O>>, published: map<K, W>): map<O, W> {
    if pairs == [] then map[]
    else
      var front, last := Override(pairs[..|pairs| - 1], published), pairs[|pairs| - 1];
      if last.key in published then front[last.option := published[last.key]] else front
  }

  /** `section` is what is left of the options, `values` and `taken` what was found so far, by
      published key and by option. */
  datatype Collected<K(==), O(==), W> = Collected(section: map<O, W>, values: map<K, W>, taken: map<O, W>)

  /** The loop that reads the generated options and deletes them. */
  function Collect<K(==), O(==), W>(pairs: seq<Pair<K, O>>, section: map<O, W>): Collected<K, O, W> {
    if pairs == [] then Collected(section, map[], map[])
    else
      var front, last := Collect(pairs[..|pairs| - 1], section), pairs[|pairs| - 1];
      if last.option in front.section then
        var v := front.section[last.option];
        Collected(front.section - {last.option}, front.values[last.key := v], front.taken[last.option := v])
      else front
  }

  predicate DistinctOptions<K, O(==)>(pairs: seq<Pair<K, O>>) {
    forall i, j | 0 <= i < j < |pairs| :: pairs[i].option != pairs[j].option
  }

  predicate DistinctKeys<K(==), O>(pairs: seq<Pair<K, O>>) {
    forall i, j | 0 <= i < j < |pairs| :: pairs[i].key != pairs[j].key
  }

  function Options<K(==), O(==)>(pairs: seq<Pair<K, O>>): set<O> { set p | p in pairs :: p.option }

  function Keys<K(==), O(==)>(pairs: seq<Pair<K, O>>): set<K> { set p | p in pairs :: p.key }

  lemma LastPair<K(!new), O(!new)>(pairs: seq<Pair<K, O>>)
    requires pairs != []
    ensures var front, last := pairs[..|pairs| - 1], pairs[|pairs| - 1];
      && Options(pairs) == Options(front) + {last.option} && Keys(pairs) == Keys(front) + {last.key}
      && (DistinctOptions(pairs) ==> last.option !in Options(front))
      && (DistinctKeys(pairs) ==> last.key !in Keys(front))
  {
    var front, last := pairs[..|pairs| - 1], pairs[|pairs| - 1];
    assert pairs == front + [last];
    assert forall p :: p in pairs <==> p in front || p == last;
    forall o ensures o in Options(pairs) <==> o in Options(front) + {last.option} {
      if o in Options(front) { var p :| p in front && p.option == o; assert p in pairs; }
      assert last in pairs;
    }
    forall k ensures k in Keys(pairs) <==> k in Keys(front) + {last.key} {
      if k in Keys(front) { var p :| p in front && p.key == k; assert p in pairs; }
      assert last in pairs;
    }
  }

  /** The option of the pair is overridden exactly by what is published for its key. */
  ghost predicate Overrides<K, O, W>(p: Pair<K, O>, published: map<K, W>, over: map<O, W>) {
    (p.option in over <==> p.key in published)
        && (p.key in published ==> p.option in over && over[p.option] == published[p.key])
  }

  lemma OverrideOneMore<K(!new), O(!new), W>(front: seq<Pair<K, O>>, last: Pair<K, O>, published: map<K, W>)
    ensures Override(front + [last], published)
         == if last.key in published then Override(front, published)[last.option := published[last.key]]
            else Override(front, published)
  {
    assert (front + [last])[..|front|] == front;
  }

  lemma {:induction false} OverrideIs<K(!new), O(!new), W>(pairs: seq<Pair<K, O>>, published: map<K, W>)
    requires DistinctOptions(pairs)
    ensures Override(pairs, published).Keys <= Options(pairs)
    ensures forall p | p in pairs :: Overrides(p, published, Override(pairs, published))
    decreases |pairs|
  {
    if pairs != [] {
      var front, last := pairs[..|pairs| - 1], pairs[|pairs| - 1];
      assert pairs == front + [last];
      OverrideIs(front, published);
      OverrideOneMore(front, last, published);
      LastPair(pairs);
      forall p | p in pairs ensures Overrides(p, published, Override(pairs, published)) {
        if p in front {
          assert p.option in Options(front) && Overrides(p, published, Override(front, published));
        } else {
          assert p == last && last.option !in Override(front, published);
        }
      }
    }
  }

  lemma {:induction false} CollectTakes<K(!new), O(!new), W>(pairs: seq<Pair<K, O>>, section: map<O, W>)
    ensures Collect(pairs, section).taken == (map o | o in section && o in Options(pairs) :: section[o])
    ensures Collect(pairs, section).section == section - Options(pairs)
    decreases |pairs|
  {
    if pairs != [] {
      CollectTakes(pairs[..|pairs| - 1], section);
      LastPair(pairs);
    }
  }

  lemma {:induction false} CollectIs<K(!new), O(!new), W>(pairs: seq<Pair<K, O>>, section: map<O, W>)
    requires DistinctOptions(pairs) && DistinctKeys(pairs)
    ensures Collect(pairs, section).values.Keys <= Keys(pairs)
    ensures forall p | p in pairs ::
      (p.key in Collect(pairs, section).values <==> p.option in section)
      && (p.option in section ==> Collect(pairs, section).values[p.key] == section[p.option])
    decreases |pairs|
  {
    if pairs != [] {
      var front, last := pairs[..|pairs| - 1], pairs[|pairs| - 1];
      CollectIs(front, section);
      CollectTakes(front, section);
      LastPair(pairs);
      assert pairs == front + [last];
      var f, c := Collect(front, section).values, Collect(pairs, section).values;
      assert last.option in Collect(front, section).section <==> last.option in section;
      forall p | p in pairs
        ensures (p.key in c <==> p.option in section) && (p.option in section ==> c[p.key] == section[p.option])
      {
        if p in front {
          assert p.key in Keys(front) && p.key != last.key;
        }
      }
    }
  }

  // --- Pairs that share an option ---

  /** The pairs that are the first ones with their option. */
  function Firsts<K(==), O(==)>(pairs: seq<Pair<K, O>>): seq<Pair<K, O>> {
    if pairs == [] then []
    else
      var front, last := pairs[..|pairs| - 1], pairs[|pairs| - 1];
      Firsts(front) + if last.option in Options(front) then [] else [last]
  }

  lemma OptionIsEarlier<K(!new), O(!new)>(front: seq<Pair<K, O>>, o: O)
    ensures o in Options(front) <==> exists i :: 0 <= i < |front| && front[i].option == o
  {
    if o in Options(front) {
      var p :| p in front && p.option == o;
      var i :| 0 <= i < |front| && front[i] == p;
    }
    if i :| 0 <= i < |front| && front[i].option == o { assert front[i] in front; }
  }

  lemma {:induction false} FirstsAre<K(!new), O(!new)>(pairs: seq<Pair<K, O>>)
    ensures Options(Firsts(pairs)) == Options(pairs) && Keys(Firsts(pairs)) <= Keys(pairs)
    ensures DistinctOptions(Firsts(pairs)) && (DistinctKeys(pairs) ==> DistinctKeys(Firsts(pairs)))
    decreases |pairs|
  {
    if pairs != [] {
      var front, last := pairs[..|pairs| - 1], pairs[|pairs| - 1];
      FirstsAre(front);
      LastPair(pairs);
      if last.option !in Options(front) { AppendPair(Firsts(front), last); }
    }
  }

  lemma AppendPair<K(!new), O(!new)>(pairs: seq<Pair<K, O>>, last: Pair<K, O>)
    ensures Options(pairs + [last]) == Options(pairs) + {last.option}
            && Keys(pairs + [last]) == Keys(pairs) + {last.key}
    ensures DistinctOptions(pairs) && last.option !in Options(pairs) ==> DistinctOptions(pairs + [last])
    ensures DistinctKeys(pairs) && last.key !in Keys(pairs) ==> DistinctKeys(pairs + [last])
  {
    LastPair(pairs + [last]);
    assert (pairs + [last])[..|pairs|] == pairs;
    AppendDistinct(pairs, last);
  }

  lemma AppendDistinct<K(!new), O(!new)>(pairs: seq<Pair<K, O>>, last: Pair<K, O>)
    ensures DistinctOptions(pairs) && last.option !in Options(pairs) ==> DistinctOptions(pairs + [last])
    ensures DistinctKeys(pairs) && last.key !in Keys(pairs) ==> DistinctKeys(pairs + [last])
  {
    var all := pairs + [last];
    forall i, j | 0 <= i < j < |all|
      ensures DistinctOptions(pairs) && last.option !in Options(pairs) ==> all[i].option != all[j].option
      ensures DistinctKeys(pairs) && last.key !in Keys(pairs) ==> all[i].key != all[j].key
    {
      assert all[i] == pairs[i] && pairs[i] in pairs;
      assert pairs[i].option in Options(pairs) && pairs[i].key in Keys(pairs);
      if j < |pairs| { assert all[j] == pairs[j]; }
    }
  }

  /** Only the first pair with an option takes its value. */
  lemma {:induction false} CollectOfFirsts<K(!new), O(!new), W>(pairs: seq<Pair<K, O>>, section: map<O, W>)
    ensures Collect(pairs, section) == Collect(Firsts(pairs), section)
    decreases |pairs|
  {
    if pairs != [] {
      var front, last := pairs[..|pairs| - 1], pairs[|pairs| - 1];
      CollectOfFirsts(front, section);
      CollectTakes(front, section);
      if last.option in Options(front) {
        assert Firsts(pairs) == Firsts(front);
      } else {
        assert (Firsts(front) + [last])[..|Firsts(front)|] == Firsts(front);
      }
    }
  }

  /** No key is published whose option belongs to an earlier pair. */
  predicate Unshadowed<K(==), O(==), W>(pairs: seq<Pair<K, O>>, published: map<K, W>) {
    forall i, j | 0 <= i < j < |pairs| && pairs[i].option == pairs[j].option :: pairs[j].key !in published
  }

  lemma {:induction false} OverrideOfFirsts<K(!new), O(!new), W>(pairs: seq<Pair<K, O>>, published: map<K, W>)
    requires Unshadowed(pairs, published)
    ensures Override(pairs, published) == Override(Firsts(pairs), published)
    decreases |pairs|
  {
    if pairs != [] {
      var front, last := pairs[..|pairs| - 1], pairs[|pairs| - 1];
      assert pairs == front + [last];
      UnshadowedOneMore(front, last, published);
      OverrideOfFirsts(front, published);
      OverrideOneMore(front, last, published);
      OverrideOneMore(Firsts(front), last, published);
      if last.option in Options(front) { assert Firsts(pairs) == Firsts(front); }
    }
  }

  lemma UnshadowedOneMore<K(!new), O(!new), W>(front: seq<Pair<K, O>>, last: Pair<K, O>, published: map<K, W>)
    ensures Unshadowed(front + [last], published)
       <==> Unshadowed(front, published) && (last.option in Options(front) ==> last.key !in published)
  {
    var pairs := front + [last];
    OptionIsEarlier(front, last.option);
    assert pairs[|front|] == last;
    forall i | 0 <= i < |front| ensures front[i] == pairs[i] {}
    if Unshadowed(pairs, published) && last.option in Options(front) {
      var i :| 0 <= i < |front| && front[i].option == last.option;
      assert pairs[i].option == pairs[|front|].option;
    }
  }

  /** ... in other words, every published key is that of a first pair. */
  lemma {:induction false} UnshadowedIs<K(!new), O(!new), W>(pairs: seq<Pair<K, O>>, published: map<K, W>)
    requires DistinctKeys(pairs)
    ensures Unshadowed(pairs, published) <==> Keys(pairs) * published.Keys <= Keys(Firsts(pairs))
    decreases |pairs|
  {
    if pairs != [] {
      var front, last := pairs[..|pairs| - 1], pairs[|pairs| - 1];
      assert pairs == front + [last];
      assert DistinctKeys(front);
      UnshadowedIs(front, published);
      UnshadowedOneMore(front, last, published);
      KeysOfFirsts(front, last);
      assert Keys(Firsts(front)) <= Keys(front) by { FirstsAre(front); }
      assert Keys(pairs) == Keys(front) + {last.key} && last.key !in Keys(front) by { LastPair(pairs); }
      OneMoreWithin(Keys(front), last.key, published.Keys, Keys(Firsts(front)), last.option in Options(front));
    }
  }

  lemma OneMoreWithin<K>(keys: set<K>, key: K, published: set<K>, firsts: set<K>, shadowed: bool)
    requires key !in keys && firsts <= keys
    ensures (keys * published <= firsts && (shadowed ==> key !in published))
       <==> (keys + {key}) * published <= firsts + if shadowed then {} else {key}
  {
    if (keys + {key}) * published <= firsts + if shadowed then {} else {key} {
      forall k | k in keys * published ensures k in firsts { assert k in (keys + {key}) * published; }
      if key in published { assert key in (keys + {key}) * published; }
    }
  }

  lemma KeysOfFirsts<K(!new), O(!new)>(front: seq<Pair<K, O>>, last: Pair<K, O>)
    ensures Keys(Firsts(front + [last]))
         == Keys(Firsts(front)) + if last.option in Options(front) then {} else {last.key}
  {
    assert (front + [last])[..|front|] == front;
    if last.option !in Options(front) {
      var firsts := Firsts(front) + [last];
      LastPair(firsts);
      assert firsts[..|firsts| - 1] == Firsts(front);
    }
  }

  // --- One run ---

  /** `publish_dict` and the flag `publish` of a run that succeeds. */
  datatype Outcome<K(==), W> = Outcome(values: map<K, W>, publish: bool)

  /** The loop over groups; None when a recipe fails. */
  function Run<S, K(==), O(==), W(==)>(groups: seq<Group<S, K, O>>, published: map<K, W>, generate: Generator<S, O, W>)
    : Option<Outcome<K, W>>
  {
    if groups == [] then Some(Outcome(map[], false))
    else match Run(groups[..|groups| - 1], published, generate)
      case None => None
      case Some(before) =>
        var g := groups[|groups| - 1];
        var over := Override(g.pairs, published);
        match generate(g.section, over)
        case None => None
        case Some(section) =>
          var c := Collect(g.pairs, section);
          Some(Outcome(before.values + c.values, before.publish || c.taken != over))
  }

  function AllKeys<S, K(==), O(==)>(groups: seq<Group<S, K, O>>): set<K> {
    if groups == [] then {} else AllKeys(groups[..|groups| - 1]) + Keys(groups[|groups| - 1].pairs)
  }

  /** The keys of one section are distinct: they are those of a dictionary. */
  predicate Keyed<S, K(==), O(==)>(groups: seq<Group<S, K, O>>) {
    groups == [] || (Keyed(groups[..|groups| - 1]) && DistinctKeys(groups[|groups| - 1].pairs))
  }

  /** The two dictionaries are the same on these keys. */
  ghost predicate Agree<K(!new), W>(a: map<K, W>, b: map<K, W>, keys: set<K>) {
    forall k | k in keys :: (k in a <==> k in b) && (k in a ==> a[k] == b[k])
  }

  /** The option of the pair has in the section the value that is published for its key. */
  ghost predicate Same<K, O, W>(p: Pair<K, O>, published: map<K, W>, section: map<O, W>) {
    (p.option in section <==> p.key in published)
    && (p.option in section && p.key in published ==> section[p.option] == published[p.key])
  }

  lemma TakenIsOverride<K(!new), O(!new), W>(pairs: seq<Pair<K, O>>, published: map<K, W>, section: map<O, W>)
    requires DistinctOptions(pairs)
    ensures Collect(pairs, section).taken == Override(pairs, published)
       <==> forall p | p in pairs :: Same(p, published, section)
  {
    var over, taken := Override(pairs, published), Collect(pairs, section).taken;
    OverrideIs(pairs, published);
    CollectTakes(pairs, section);
    if taken == over {
      forall p | p in pairs ensures Same(p, published, section) {
        assert p.option in Options(pairs);
        assert p.option in over <==> p.option in taken;
      }
    }
    if forall p | p in pairs :: Same(p, published, section) {
      forall o ensures (o in taken <==> o in over) && (o in over ==> taken[o] == over[o]) {
        if o in Options(pairs) { var p :| p in pairs && p.option == o; }
      }
      assert taken == over;
    }
  }

  lemma ValuesArePublished<K(!new), O(!new), W>(pairs: seq<Pair<K, O>>, published: map<K, W>, section: map<O, W>)
    requires DistinctOptions(pairs) && DistinctKeys(pairs)
    ensures Agree(Collect(pairs, section).values, published, Keys(pairs))
       <==> forall p | p in pairs :: Same(p, published, section)
  {
    CollectIs(pairs, section);
    if Agree(Collect(pairs, section).values, published, Keys(pairs)) {
      forall p | p in pairs ensures Same(p, published, section) { assert p.key in Keys(pairs); }
    }
  }

  // --- The run, with the hook on buildout.Options ---

  /** What the attribute `Options` of the buildout object is: some other class, or the function
      that overrides options of the next section. */
  datatype Class = Other(id: nat) | NewOptions

  /** The sections that are initialised when those of the groups have been. */
  function Initialised<S, K, O>(groups: seq<Group<S, K, O>>, before: set<S>, needs: S -> set<S>): set<S> {
    if groups == [] then before
    else
      var s := groups[|groups| - 1].section;
      Initialised(groups[..|groups| - 1], before, needs) + {s} + needs(s)
  }

  /** No section of a group is initialised before its turn. */
  predicate InTime<S(==), K, O>(groups: seq<Group<S, K, O>>, before: set<S>, needs: S -> set<S>) {
    groups == [] || (
      var front := groups[..|groups| - 1];
      InTime(front, before, needs) && groups[|groups| - 1].section !in Initialised(front, before, needs))
  }

  class Buildout<S(==, !new)> {
    /** `Options` in the dictionary of the object, if it is there. */
    var options: Option<Class>
    var initialised: set<S>

    constructor (options: Option<Class>, initialised: set<S>)
      ensures this.options == options && this.initialised == initialised
    {
      this.options, this.initialised := options, initialised;
    }

    /** `buildout[section]`: a section that is not initialised yet calls `Options`, here the
        function that first restores the original and then overrides; `needs` are the sections
        that are initialised with it. */
    method GetItem<O, W>(section: S, over: map<O, W>, original: Option<Class>, generate: Generator<S, O, W>,
                         needs: S -> set<S>)
      returns (called: bool, result: Option<map<O, W>>)
      requires options == Some(NewOptions)
      modifies this
      ensures called <==> section !in old(initialised)
      ensures called ==> options == original && result == generate(section, over)
      ensures called ==> initialised == old(initialised) + {section} + needs(section)
    {
      if section in initialised {
        called, result := false, None;
      } else {
        options := original;
        called, result := true, generate(section, over);
        initialised := initialised + {section} + needs(section);
      }
    }

    /** The body of `try`: None is an exception, of a recipe or because a section was already
        initialised; it may leave the hook in place. */
    method GenerateAll<K(==, !new), O(==, !new), W(==)>(groups: seq<Group<S, K, O>>, published: map<K, W>,
                                                       generate: Generator<S, O, W>, needs: S -> set<S>)
      returns (result: Option<Outcome<K, W>>)
      modifies this
      ensures result == if InTime(groups, old(initialised), needs) then Run(groups, published, generate) else None
    {
      var original := options;
      var out := Outcome(map[], false);
      for i := 0 to |groups|
        invariant options == original
        invariant InTime(groups[..i], old(initialised), needs)
        invariant initialised == Initialised(groups[..i], old(initialised), needs)
        invariant Run(groups[..i], published, generate) == Some(out)
      {
        var g := groups[i];
        assert groups[..i + 1][..i] == groups[..i];
        var over := Override(g.pairs, published);
        options := Some(NewOptions);
        var called, section := GetItem(g.section, over, original, generate, needs);
        if !called || section.None? {
          result := None;
          FailureStays(groups, i + 1, published, generate, old(initialised), needs);
          return;
        }
        var c := Collect(g.pairs, section.value);
        out := Outcome(out.values + c.values, out.publish || c.taken != over);
      }
      assert groups[..|groups|] == groups;
      result := Some(out);
    }

    /** `try` and `finally`: `buildout.Options` is as before on every exit. */
    method Initialise<K(==, !new), O(==, !new), W(==)>(groups: seq<Group<S, K, O>>, published: map<K, W>,
                                                      generate: Generator<S, O, W>, needs: S -> set<S>)
      returns (result: Option<Outcome<K, W>>)
      modifies this
      ensures options == old(options)
      ensures result == if InTime(groups, old(initialised), needs) then Run(groups, published, generate) else None
    {
      var original := options;
      result := GenerateAll(groups, published, generate, needs);
      options := original;
    }
  }

  /** A failure with some of the groups is one with all of them. */
  lemma {:induction false} FailureStays<S, K(!new), O(!new), W>(groups: seq<Group<S, K, O>>, n: nat,
      published: map<K, W>,
                                                                generate: Generator<S, O, W>, before: set<S>,
                                                                needs: S -> set<S>)
    requires n <= |groups|
    requires !InTime(groups[..n], before, needs) || Run(groups[..n], published, generate).None?
    ensures !InTime(groups, before, needs) || Run(groups, published, generate).None?
    decreases |groups|
  {
    if n < |groups| {
      var front := groups[..|groups| - 1];
      assert front[..n] == groups[..n];
      FailureStays(front, n, published, generate, before, needs);
    } else {
      assert groups[..n] == groups;
    }
  }

  lemma {:induction false} InitialisedExactly<S(!new), K, O>(groups: seq<Group<S, K, O>>, before: set<S>,
                                                             needs: S -> set<S>, s: S)
    ensures s in Initialised(groups, before, needs)
       <==> s in before || exists j :: 0 <= j < |groups| && (groups[j].section == s || s in needs(groups[j].section))
    decreases |groups|
  {
    if groups != [] {
      var front := groups[..|groups| - 1];
      InitialisedExactly(front, before, needs, s);
      assert forall j | 0 <= j < |front| :: front[j] == groups[j];
    }
  }

  /** The section is initialised neither before the recipe runs nor with the section of an earlier
      group. */
  ghost predicate IsNew<S(!new), K, O>(groups: seq<Group<S, K, O>>, i: nat, before: set<S>, needs: S -> set<S>)
    requires i < |groups|
  {
    && groups[i].section !in before
    && forall j | 0 <= j < i :: groups[j].section != groups[i].section && groups[i].section !in needs(groups[j].section)
  }

  lemma LastIsNew<S(!new), K, O>(groups: seq<Group<S, K, O>>, before: set<S>, needs: S -> set<S>)
    requires groups != []
    ensures var last := |groups| - 1;
      groups[last].section !in Initialised(groups[..last], before, needs) <==> IsNew(groups, last, before, needs)
  {
    var last := |groups| - 1;
    InitialisedExactly(groups[..last], before, needs, groups[last].section);
    assert forall j | 0 <= j < last :: groups[..last][j] == groups[j];
  }

  /** The recipe gets through its groups, as far as this depends on sections, exactly when the section
      of each group is then new. */
  lemma {:induction false} InTimeExactly<S(!new), K, O>(groups: seq<Group<S, K, O>>, before: set<S>, needs: S -> set<S>)
    ensures InTime(groups, before, needs) <==> forall i | 0 <= i < |groups| :: IsNew(groups, i, before, needs)
    decreases |groups|
  {
    if groups != [] {
      var front, last := groups[..|groups| - 1], |groups| - 1;
      InTimeExactly(front, before, needs);
      forall i | 0 <= i < last ensures IsNew(front, i, before, needs) <==> IsNew(groups, i, before, needs) {
        assert forall j | 0 <= j <= i :: front[j] == groups[j];
      }
      assert forall j | 0 <= j < last :: front[j] == groups[j];
      LastIsNew(groups, before, needs);
      if InTime(groups, before, needs) {
        forall i | 0 <= i < |groups| ensures IsNew(groups, i, before, needs) {
          assert i < last ==> IsNew(front, i, before, needs);
        }
      }
    }
  }
}
