/**
 * The values the generator works on: fixture files and directories, configuration keys, the
 * answers of the directive collaborator, the eligibility filter, the walk over a directory
 * listing, and the text of one generated test method.
 */
module Fixtures {
  import opened Strings
  import opened Naming

  datatype Option<T> = None | Some(value: T)

  /** One (name, content) pair queued for compilation. */
  datatype RawFile = RawFile(name: string, content: string)

  /**
   * The grouping key: the names of the configuration kind and JDK kind constants and the
   * serialised configuration. Equal keys mean one shared batch.
   */
  datatype ConfigurationKey = ConfigurationKey(kind: string, jdkKind: string, configuration: string)

  /** A compiler configuration, treated as an opaque value. */
  datatype CompilerConfiguration = CompilerConfiguration(description: string)

  /**
   * What the directive collaborator reports for one fixture: whether the fixture is meant for the
   * JVM back end, the derived kinds, the serialised key configuration, the full configuration a
   * new writer is created with, the entries patchFiles adds to the writer and the class holding
   * box() that patchFiles returns (None for null).
   */
  datatype Directives = Directives(
    passesJvmTarget: bool,
    kind: string,
    jdkKind: string,
    keyConfiguration: string,
    writerConfiguration: CompilerConfiguration,
    patched: seq<RawFile>,
    classWithBoxMethod: Option<string>)

  /** A regular file as read from disk. */
  datatype Fixture = Fixture(name: string, path: string, text: string, directives: Directives)

  /** An entry of a directory listing; `listable` is false when listing the directory yields null. */
  datatype FileNode =
    | Directory(dirName: string, dirPath: string, listable: bool, children: seq<FileNode>)
    | RegularFile(file: Fixture)
  {
    function Name(): string {
      match this
      case Directory(n, _, _, _) => n
      case RegularFile(f) => f.name
    }

    function Path(): string {
      match this
      case Directory(_, p, _, _) => p
      case RegularFile(f) => f.path
    }

    /** Listing a regular file, or a directory that cannot be listed, yields null. */
    predicate Listable() {
      Directory? && listable
    }
  }

  const KotlinExtension: string := "kt"
  const JvmPackageNameMarker: string := "@file:JvmPackageName("
  const BoxMarker: string := "fun box()"

  predicate HasBoxMethod(text: string) {
    Contains(text, BoxMarker)
  }

  /** A text has a box method exactly when "fun box()" occurs somewhere in it. */
  lemma HasBoxMethodIffOccurs(text: string)
    ensures HasBoxMethod(text) <==> exists i: nat :: OccursAt(text, BoxMarker, i)
  {
    ContainsIffOccurs(text, BoxMarker);
  }

  /** A regular file reaches batching only when every one of these holds. */
  predicate Eligible(excluded: set<string>, f: Fixture) {
    && f.name !in excluded
    && Extension(f.name) == KotlinExtension
    && f.directives.passesJvmTarget
    && !Contains(f.text, JvmPackageNameMarker)
    && HasBoxMethod(f.text)
  }

  function KeyOf(f: Fixture): ConfigurationKey {
    ConfigurationKey(f.directives.kind, f.directives.jdkKind, f.directives.keyConfiguration)
  }

  // ---------------------------------------------------------------------------
  // The walk

  /** The fixtures of a listing that pass the filter, depth first, in listing order. */
  function Accepted(excluded: set<string>, files: seq<FileNode>): seq<Fixture>
    decreases files
  {
    if files == [] then []
    else Accepted(excluded, files[..|files| - 1]) + AcceptedIn(excluded, files[|files| - 1])
  }

  function AcceptedIn(excluded: set<string>, node: FileNode): seq<Fixture>
    decreases node
  {
    if node.Name() in excluded then []
    else match node
      case Directory(_, _, listable, children) => if listable then Accepted(excluded, children) else []
      case RegularFile(f) => if Eligible(excluded, f) then [f] else []
  }

  /** Reference definition: every regular file reached by the traversal, with no filter applied. */
  function Reached(excluded: set<string>, files: seq<FileNode>): seq<Fixture>
    decreases files
  {
    if files == [] then []
    else Reached(excluded, files[..|files| - 1]) + ReachedIn(excluded, files[|files| - 1])
  }

  function ReachedIn(excluded: set<string>, node: FileNode): seq<Fixture>
    decreases node
  {
    if node.Name() in excluded then []
    else match node
      case Directory(_, _, listable, children) => if listable then Reached(excluded, children) else []
      case RegularFile(f) => [f]
  }

  function FilterEligible(excluded: set<string>, fs: seq<Fixture>): seq<Fixture>
    decreases |fs|
  {
    if fs == [] then []
    else FilterEligible(excluded, fs[..|fs| - 1])
         + (if Eligible(excluded, fs[|fs| - 1]) then [fs[|fs| - 1]] else [])
  }

  lemma {:induction false} FilterEligibleAppend(excluded: set<string>, a: seq<Fixture>, b: seq<Fixture>)
    ensures FilterEligible(excluded, a + b) == FilterEligible(excluded, a) + FilterEligible(excluded, b)
    decreases |b|
  {
    if b == [] {
      assert a + b == a;
    } else {
      assert (a + b)[..|a + b| - 1] == a + b[..|b| - 1];
      FilterEligibleAppend(excluded, a, b[..|b| - 1]);
    }
  }

  /**
   * The walk accepts exactly the reached files that pass the filter, in the order reached:
   * a file is batched only if it is eligible, and every eligible reached file is batched.
   */
  lemma {:induction false} AcceptedIsFilteredWalk(excluded: set<string>, files: seq<FileNode>)
    ensures Accepted(excluded, files) == FilterEligible(excluded, Reached(excluded, files))
    decreases files
  {
    if files != [] {
      var init, last := files[..|files| - 1], files[|files| - 1];
      AcceptedIsFilteredWalk(excluded, init);
      AcceptedInIsFilteredWalk(excluded, last);
      FilterEligibleAppend(excluded, Reached(excluded, init), ReachedIn(excluded, last));
    }
  }

  lemma {:induction false} AcceptedInIsFilteredWalk(excluded: set<string>, node: FileNode)
    ensures AcceptedIn(excluded, node) == FilterEligible(excluded, ReachedIn(excluded, node))
    decreases node
  {
    if node.Name() !in excluded {
      match node
      case Directory(_, _, listable, children) =>
        if listable {
          AcceptedIsFilteredWalk(excluded, children);
        }
      case RegularFile(f) =>
        assert [f][..0] == [];
    }
  }

  /** Membership form: a fixture is accepted iff it is reached and eligible. */
  lemma AcceptedIffEligible(excluded: set<string>, files: seq<FileNode>, f: Fixture)
    ensures f in Accepted(excluded, files) <==> f in Reached(excluded, files) && Eligible(excluded, f)
  {
    AcceptedIsFilteredWalk(excluded, files);
    FilterEligibleMembers(excluded, Reached(excluded, files), f);
  }

  lemma {:induction false} FilterEligibleMembers(excluded: set<string>, fs: seq<Fixture>, f: Fixture)
    ensures f in FilterEligible(excluded, fs) <==> f in fs && Eligible(excluded, f)
    decreases |fs|
  {
    if fs != [] {
      FilterEligibleMembers(excluded, fs[..|fs| - 1], f);
      assert fs == fs[..|fs| - 1] + [fs[|fs| - 1]];
    }
  }

  /** The roots are walked one after the other; a root's own name is not filtered. */
  function AcceptedUnderRoots(excluded: set<string>, roots: seq<FileNode>): seq<Fixture>
    decreases |roots|
  {
    if roots == [] then []
    else
      var last := roots[|roots| - 1];
      AcceptedUnderRoots(excluded, roots[..|roots| - 1])
      + (if last.Listable() then Accepted(excluded, last.children) else [])
  }

  // ---------------------------------------------------------------------------
  // Keys in first-appearance order (the insertion order of the holders map)

  function KeysOf(fs: seq<Fixture>): (ks: seq<ConfigurationKey>)
    ensures |ks| == |fs| && forall i :: 0 <= i < |fs| ==> ks[i] == KeyOf(fs[i])
  {
    seq(|fs|, i requires 0 <= i < |fs| => KeyOf(fs[i]))
  }

  /** The entries patchFiles queues for key k over a sequence of fixtures, in order. */
  function PatchedFor(fs: seq<Fixture>, k: ConfigurationKey): seq<RawFile>
    decreases |fs|
  {
    if fs == [] then []
    else PatchedFor(fs[..|fs| - 1], k) + (if KeyOf(fs[|fs| - 1]) == k then fs[|fs| - 1].directives.patched else [])
  }

  lemma {:induction false} PatchedForAppend(a: seq<Fixture>, b: seq<Fixture>, k: ConfigurationKey)
    ensures PatchedFor(a + b, k) == PatchedFor(a, k) + PatchedFor(b, k)
    decreases |b|
  {
    if b == [] {
      assert a + b == a;
    } else {
      assert (a + b)[..|a + b| - 1] == a + b[..|b| - 1];
      PatchedForAppend(a, b[..|b| - 1], k);
    }
  }

  /**
   * Entries are queued only under the keys of the fixtures: a key none of them has receives
   * nothing, and a single fixture queues its entries under its own key.
   */
  lemma {:induction false} PatchedForOnlyOwnKeys(fs: seq<Fixture>, k: ConfigurationKey)
    ensures k !in KeysOf(fs) ==> PatchedFor(fs, k) == []
    ensures |fs| == 1 ==> PatchedFor(fs, k) == (if KeyOf(fs[0]) == k then fs[0].directives.patched else [])
    decreases |fs|
  {
    if fs != [] {
      PatchedForOnlyOwnKeys(fs[..|fs| - 1], k);
      if k !in KeysOf(fs) {
        assert forall i :: 0 <= i < |fs| - 1 ==> KeysOf(fs[..|fs| - 1])[i] == KeysOf(fs)[i];
        assert KeysOf(fs)[|fs| - 1] == KeyOf(fs[|fs| - 1]);
      }
    }
  }

  /** The order after each key is looked up and, when absent, added at the end. */
  function AddKeys(order: seq<ConfigurationKey>, keys: seq<ConfigurationKey>): seq<ConfigurationKey>
    decreases |keys|
  {
    if keys == [] then order
    else
      var o := AddKeys(order, keys[..|keys| - 1]);
      if keys[|keys| - 1] in o then o else o + [keys[|keys| - 1]]
  }

  /**
   * Adding keys keeps the order duplicate-free and extends it: the old keys stay in place, and the
   * keys present afterwards are exactly the old ones and the added ones.
   */
  lemma {:induction false} AddKeysGrowsByNewKeys(order: seq<ConfigurationKey>, keys: seq<ConfigurationKey>)
    requires Distinct(order)
    ensures Distinct(AddKeys(order, keys))
    ensures order <= AddKeys(order, keys)
    ensures forall k :: k in AddKeys(order, keys) <==> k in order || k in keys
    decreases |keys|
  {
    if keys != [] {
      AddKeysGrowsByNewKeys(order, keys[..|keys| - 1]);
      assert keys == keys[..|keys| - 1] + [keys[|keys| - 1]];
    }
  }

  lemma {:induction false} AddKeysAppend(order: seq<ConfigurationKey>, a: seq<ConfigurationKey>, b: seq<ConfigurationKey>)
    ensures AddKeys(order, a + b) == AddKeys(AddKeys(order, a), b)
    decreases |b|
  {
    if b == [] {
      assert a + b == a;
    } else {
      assert (a + b)[..|a + b| - 1] == a + b[..|b| - 1];
      AddKeysAppend(order, a, b[..|b| - 1]);
    }
  }

  // ---------------------------------------------------------------------------
  // The text of one generated test method

  const TestHeaderPrefix: string := "public void test"
  const TestHeaderSuffix: string := "() throws Exception {"

  /**
   * The four lines printed for one fixture; the second is one indentation step deeper
   * (the enclosing class indentation is not modelled).
   */
  function TestMethodLines(testName: string, className: string, filePath: string): (lines: seq<string>)
  {
    [ TestHeaderPrefix + testName + TestHeaderSuffix,
      "    invokeBoxMethod(" + className + ".class, \"" + filePath + "\", \"OK\");",
      "}",
      "" ]
  }

  /** The test name read back from a method header line. */
  function TestNameOfHeader(header: string): string {
    if |header| >= |TestHeaderPrefix| + |TestHeaderSuffix| then
      header[|TestHeaderPrefix|..|header| - |TestHeaderSuffix|]
    else ""
  }

  /**
   * The method is four lines, a closing brace and a blank line at the end, and its header
   * names exactly the allocated test: distinct names give distinct method declarations.
   */
  lemma TestMethodHeaderNamesTest(testName: string, className: string, filePath: string)
    ensures |TestMethodLines(testName, className, filePath)| == 4
    ensures TestNameOfHeader(TestMethodLines(testName, className, filePath)[0]) == testName
    ensures TestMethodLines(testName, className, filePath)[2..] == ["}", ""]
  {
    var h := TestHeaderPrefix + testName + TestHeaderSuffix;
    assert h[|TestHeaderPrefix|..|h| - |TestHeaderSuffix|] == testName;
  }

  // ---------------------------------------------------------------------------
  // Name allocation and text emission over a sequence of accepted fixtures

  /** The run-wide list of allocated names and the lines printed so far. */
  datatype Emission = Emission(names: seq<string>, lines: seq<string>)

  /** One fixture: patchFiles returned null (no test) or a class, which gets a name and a method. */
  function EmitOne(e: Emission, f: Fixture): Emission {
    match f.directives.classWithBoxMethod
    case None => e
    case Some(cls) =>
      var n := FreeName(e.names, BaseName(f.name), 0);
      Emission(e.names + [n], e.lines + TestMethodLines(n, cls, Escape(f.path)))
  }

  function Emit(e: Emission, fs: seq<Fixture>): Emission
    decreases |fs|
  {
    if fs == [] then e else EmitOne(Emit(e, fs[..|fs| - 1]), fs[|fs| - 1])
  }

  function WithBoxClass(fs: seq<Fixture>): nat
    decreases |fs|
  {
    if fs == [] then 0
    else WithBoxClass(fs[..|fs| - 1]) + (if fs[|fs| - 1].directives.classWithBoxMethod.Some? then 1 else 0)
  }

  lemma {:induction false} EmitAppend(e: Emission, a: seq<Fixture>, b: seq<Fixture>)
    ensures Emit(e, a + b) == Emit(Emit(e, a), b)
    decreases |b|
  {
    if b == [] {
      assert a + b == a;
    } else {
      assert (a + b)[..|a + b| - 1] == a + b[..|b| - 1];
      EmitAppend(e, a, b[..|b| - 1]);
    }
  }

  /**
   * Emission appends one fresh identifier per fixture with a box class, never repeats a name,
   * and prints four lines per name.
   */
  lemma {:induction false} EmitAllocatesDistinctNames(e: Emission, fs: seq<Fixture>)
    requires Distinct(e.names)
    ensures e.names <= Emit(e, fs).names && e.lines <= Emit(e, fs).lines
    ensures |Emit(e, fs).names| == |e.names| + WithBoxClass(fs)
    ensures |Emit(e, fs).lines| == |e.lines| + 4 * WithBoxClass(fs)
    ensures Distinct(Emit(e, fs).names)
    ensures forall j :: |e.names| <= j < |Emit(e, fs).names| ==> AllIdentifierChars(Emit(e, fs).names[j])
    decreases |fs|
  {
    if fs != [] {
      var p := Emit(e, fs[..|fs| - 1]);
      EmitAllocatesDistinctNames(e, fs[..|fs| - 1]);
      var f := fs[|fs| - 1];
      if f.directives.classWithBoxMethod.Some? {
        AllocationKeepsNamesDistinct(p.names, BaseName(f.name));
        FreeNameIsIdentifier(p.names, BaseName(f.name));
      }
    }
  }
}
