/** The walks of the export on the paths it is configured with. */
module TheiaSignatures {
  import opened Common
  import opened Paths
  import opened TheiaExport
  import opened TheiaPaths
  import opened TheiaWalk

  /** `d.startswith('slappart')` */
  predicate IsPartitionName(d: string) { StartsWith(d, "slappart") }

  /** The names of the instance directory below the root, and of its mirror below the backup. */
  function InstanceNames(root: string, instance: string): seq<string>
    requires Names(root) <= Names(instance)
  {
    Names(instance)[|Names(root)|..]
  }

  /** Whether `hashwalk` of the backup excludes the partitions. */
  predicate Excludes(root: string, backup: string, instance: string)
    requires IsAbsolute(root) && IsAbsolute(backup) && IsAbsolute(instance)
  {
    IsSubpathOf(MirrorPath(root, backup, instance), backup)
  }

  /** It does, unless the first name of the instance directory below the root starts with two
      dots. */
  lemma ExcludesExactly(root: string, backup: string, instance: string)
    requires IsAbsolute(root) && IsAbsolute(backup) && IsAbsolute(instance) && Names(root) <= Names(instance)
    ensures var names := InstanceNames(root, instance);
      Excludes(root, backup, instance) <==> !(names != [] && StartsWith(names[0], ".."))
  {
    MirrorStaysInBackup(root, backup, instance);
    SubpathMeans(MirrorPath(root, backup, instance), backup);
    var names, base := InstanceNames(root, instance), Names(backup);
    assert base + names == base <==> names == [];
    assert names != [] ==> (base + names)[|base|] == names[0];
  }

  /** For any configuration with the instance directory below the root, where the partitions there
      are signed: the signatures list no file twice if and only if the first name of the
      instance directory does not start with two dots, or no partition holds a file. */
  lemma SignedOnceExactly<C(!new)>(root: string, backup: string, instance: string, es: Entries<string, C>,
                                   partitions: seq<string>)
    requires IsAbsolute(root) && IsAbsolute(backup) && IsAbsolute(instance) && Names(root) <= Names(instance)
    requires WellFormed(es) && ArePartitions(IsPartitionName, partitions)
    ensures var names := InstanceNames(root, instance);
      var parts := PartitionFiles(es, names, partitions);
      var all := RootWalk(es, names, IsPartitionName, Excludes(root, backup, instance)) + parts;
      NoDuplicates(all) <==> !(names != [] && StartsWith(names[0], "..")) || parts == []
  {
    ExcludesExactly(root, backup, instance);
    OnceExactly(es, InstanceNames(root, instance), IsPartitionName, partitions, Excludes(root, backup, instance));
  }

  /** They list every file of the backup if and only if that name starts with two dots, or no
      mirrored partition that is not signed holds a file. */
  lemma SignedAllExactly<C(!new)>(root: string, backup: string, instance: string, es: Entries<string, C>,
                                  partitions: seq<string>)
    requires IsAbsolute(root) && IsAbsolute(backup) && IsAbsolute(instance) && Names(root) <= Names(instance)
    requires WellFormed(es) && ArePartitions(IsPartitionName, partitions)
    ensures var names := InstanceNames(root, instance);
      var all := RootWalk(es, names, IsPartitionName, Excludes(root, backup, instance)) + PartitionFiles(es, names,
          partitions);
      (forall x: Item<string, C> | Find(es, x.path) == Some(x.content) :: x in all)
      <==> (names != [] && StartsWith(names[0], "..")) || NoneStale(es, names, IsPartitionName, partitions)
  {
    ExcludesExactly(root, backup, instance);
    CoveredExactly(es, InstanceNames(root, instance), IsPartitionName, partitions, Excludes(root, backup, instance));
  }

  // --- Names of signature files ---

  const ROOT_SIGNATURE := "backup.signature"

  function SignatureOf(partition: string): string { partition + ".backup.signature" }

  /** `*backup.signature*`, which as every such pattern matches no hidden file. */
  predicate IsSignatureName(name: string) {
    !StartsWith(name, ".") && exists i :: 0 <= i <= |name| && StartsWith(name[i..], ROOT_SIGNATURE)
  }

  lemma SignaturesMatch(partition: string)
    requires IsPartitionName(partition)
    ensures IsSignatureName(ROOT_SIGNATURE) && IsSignatureName(SignatureOf(partition))
            && SignatureOf(partition) != ROOT_SIGNATURE
  {
    var name := SignatureOf(partition);
    assert ROOT_SIGNATURE[0..] == ROOT_SIGNATURE;
    assert StartsWith(ROOT_SIGNATURE[0..], ROOT_SIGNATURE);
    assert name[|partition| + 1..] == ROOT_SIGNATURE;
    assert StartsWith(name[|partition| + 1..], ROOT_SIGNATURE);
    assert name[0] == partition[0] == "slappart"[0] && ROOT_SIGNATURE[0] == 'b' && "."[0] == '.';
  }

  lemma SignatureInjective(a: string, b: string)
    ensures SignatureOf(a) == SignatureOf(b) ==> a == b
  {
    var tail := ".backup.signature";
    assert SignatureOf(a)[..|SignatureOf(a)| - |tail|] == a && SignatureOf(b)[..|SignatureOf(b)| - |tail|] == b;
  }

  lemma {:induction false} NotSignedBefore(partitions: seq<string>, i: nat, k: nat)
    requires k <= i < |partitions| && ArePartitions(IsPartitionName, partitions)
    ensures SignatureOf(partitions[i]) !in SignatureNames(ROOT_SIGNATURE, SignatureOf, partitions, k)
  {
    SignaturesMatch(partitions[i]);
    if k > 0 {
      NotSignedBefore(partitions, i, k - 1);
      SignatureInjective(partitions[k - 1], partitions[i]);
    }
  }

  /** After `remove_signatures`, and as long as what is copied brings no such names, every signature
      file has a new name if and only if none of their names is that of a directory. */
  lemma NewAfterRemovalExactly<C>(before: Entries<string, C>, start: Entries<string, C>, partitions: seq<string>)
    requires ArePartitions(IsPartitionName, partitions)
    requires forall m | IsSignatureName(m) ::
               Child(start, m) == if Child(before, m).Some?
                   && !Child(before, m).value.Dir? then None else Child(before, m)
    ensures NewNames(start, ROOT_SIGNATURE, SignatureOf, partitions)
       <==> !HasDirectory(before, ROOT_SIGNATURE) && forall d | d in partitions :: !HasDirectory(before, SignatureOf(d))
  {
    forall i | 0 <= i < |partitions|
      ensures IsSignatureName(ROOT_SIGNATURE) && IsSignatureName(SignatureOf(partitions[i]))
      ensures SignatureOf(partitions[i]) !in SignatureNames(ROOT_SIGNATURE, SignatureOf, partitions, i)
    {
      SignaturesMatch(partitions[i]);
      NotSignedBefore(partitions, i, i);
    }
    SignaturesMatch("slappart");
  }

  predicate HasDirectory<C>(es: Entries<string, C>, name: string) {
    Child(es, name).Some? && Child(es, name).value.Dir?
  }

  lemma PartitionNameExactly(d: string)
    ensures IsPartitionName(d) <==> exists rest :: d == "slappart" + rest
  {
    if IsPartitionName(d) {
      assert d == "slappart" + d[8..];
    }
    if rest :| d == "slappart" + rest { assert d[..8] == "slappart"; }
  }

  /** A name that `remove_signatures` matches has `backup.signature` somewhere and is not hidden. */
  lemma SignatureNameExactly(name: string)
    ensures IsSignatureName(name)
       <==> (name == "" || name[0] != '.') && exists a, b :: name == a + "backup.signature" + b
  {
    assert StartsWith(name, ".") <==> name != "" && name[0] == '.' by {
      if name != "" && name[0] == '.' { assert name[..1] == "."; }
      if StartsWith(name, ".") { assert name[0] == "."[0]; }
    }
    if i :| 0 <= i <= |name| && StartsWith(name[i..], ROOT_SIGNATURE) {
      assert name == name[..i] + "backup.signature" + name[i + 16..];
    }
    if a, b :| name == a + "backup.signature" + b { PartsMatch(a, b); }
  }

  lemma PartsMatch(a: string, b: string)
    ensures var name := a + "backup.signature" + b;
            exists i :: 0 <= i <= |name| && StartsWith(name[i..], ROOT_SIGNATURE)
  {
    var name := a + "backup.signature" + b;
    assert name[|a|..] == "backup.signature" + b;
    assert StartsWith(name[|a|..], ROOT_SIGNATURE);
  }

  // --- The import ---

  /** `find_signature_file`, and whether the signature is a custom one; None is an exception. */
  function FindSignature<C>(es: Entries<string, C>, partition: string): Option<(string, bool)> {
    var name := partition + ".backup.signature";
    if Child(es, name).Some? then Some((name, false))
    else if Child(es, name + ".custom").Some? then Some((name + ".custom", true))
    else None
  }

  /** The import finds each signature where the export has written it. */
  lemma ImportFindsSignatures<C(!new)>(es: Entries<string, C>, partitions: seq<string>, contents: seq<C>)
    requires Holds(es, [ROOT_SIGNATURE] + seq(|partitions|,
                                              i requires 0 <= i < |partitions| => SignatureOf(partitions[i])),
                   contents)
    ensures Child(es, "backup.signature") == Some(File(contents[0]))
    ensures forall i | 0 <= i < |partitions| ::
              var found := FindSignature(es, partitions[i]);
              found.Some? && !found.value.1 && Child(es, found.value.0) == Some(File(contents[i + 1]))
  {
    var names := [ROOT_SIGNATURE] + seq(|partitions|, i requires 0 <= i < |partitions| => SignatureOf(partitions[i]));
    assert names[0] == "backup.signature";
    forall i | 0 <= i < |partitions| ensures Child(es, SignatureOf(partitions[i])) == Some(File(contents[i + 1])) {
      assert names[i + 1] == SignatureOf(partitions[i]);
    }
  }
}
