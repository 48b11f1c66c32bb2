/**
 * Insertion of the loader call into the generated header class: a static
 * initializer `try { Loader.load(); } catch (Exception exception) { throw new
 * RuntimeException(exception); }` appended to the class, unless a static
 * initializer already makes that call.
 */
module LoaderInjector {
  import opened Wrappers
  import opened Strings
  import opened Exceptions
  import opened FileTree
  import opened JavaSource

  /** The call the check looks for: `Loader.method()`. */
  function CallText(loaderClassName: string, methodName: string): string {
    loaderClassName + "." + methodName + "()"
  }

  /** A static initializer whose printed body contains the call. */
  predicate CallsLoader(m: Member, call: string) {
    m.Initializer? && m.isStatic && Contains(m.body, call)
  }

  /** `isAlreadyInjected`, a search over the class's members. */
  function IsAlreadyInjected(members: seq<Member>, call: string): (r: bool)
    ensures r <==> exists i :: 0 <= i < |members| && CallsLoader(members[i], call)
  {
    if |members| == 0 then false
    else
      assert forall i :: 1 <= i < |members| ==> members[i] == members[1..][i - 1];
      CallsLoader(members[0], call) || IsAlreadyInjected(members[1..], call)
  }

  /** The printed text of `createLoaderInnitBlock` before the call, as the default pretty printer lays it out. */
  const BlockHead: string := "{\n    try {\n        "

  /** The printed text after the call: the catch clause rethrowing as a RuntimeException. */
  const BlockTail: string := ";\n    } catch (Exception exception) {\n        throw new RuntimeException(exception);\n    }\n}"

  /** The printed body of `createLoaderInnitBlock`. */
  function LoaderInitBlock(loaderClassName: string, methodName: string): string {
    BlockHead + CallText(loaderClassName, methodName) + BlockTail
  }

  /** The block makes exactly the call that the check looks for. */
  lemma LoaderInitBlockCalls(loaderClassName: string, methodName: string)
    ensures Contains(LoaderInitBlock(loaderClassName, methodName), CallText(loaderClassName, methodName))
  {
    var block := LoaderInitBlock(loaderClassName, methodName);
    var call := CallText(loaderClassName, methodName);
    assert block[|BlockHead|..|BlockHead| + |call|] == call;
    ContainsAt(block, call, |BlockHead|);
  }

  /** The static initializer that `inject` adds. */
  function LoaderInitializer(loaderClassName: string, methodName: string): Member {
    Initializer(true, LoaderInitBlock(loaderClassName, methodName))
  }

  /** What `inject` does to a parsed unit. */
  datatype Outcome = ClassMissing | AlreadyInjected | Injected(unit: CompilationUnit)

  function InjectUnit(unit: CompilationUnit, headerClass: string, loaderClassName: string, methodName: string)
    : (r: Outcome)
    ensures r.ClassMissing? <==> FindClass(unit.types, headerClass).None?
    ensures r.AlreadyInjected? <==>
      && FindClass(unit.types, headerClass).Some?
      && IsAlreadyInjected(unit.types[FindClass(unit.types, headerClass).value].members,
                           CallText(loaderClassName, methodName))
  {
    match FindClass(unit.types, headerClass)
    case None => ClassMissing
    case Some(i) =>
      var c := unit.types[i];
      if IsAlreadyInjected(c.members, CallText(loaderClassName, methodName)) then AlreadyInjected
      else
        var c2 := c.(members := c.members + [LoaderInitializer(loaderClassName, methodName)]);
        Injected(unit.(types := unit.types[i := c2]))
  }

  /**
   * An injection changes one class only: that class keeps all its members,
   * static initializers included, and gains one static initializer at the
   * end, which makes the call; the package and every other class are kept.
   */
  lemma InjectAppendsOneBlock(unit: CompilationUnit, headerClass: string, loaderClassName: string, methodName: string)
    requires InjectUnit(unit, headerClass, loaderClassName, methodName).Injected?
    ensures var u2 := InjectUnit(unit, headerClass, loaderClassName, methodName).unit;
      var i := FindClass(unit.types, headerClass).value;
      && u2.packageName == unit.packageName
      && |u2.types| == |unit.types|
      && (forall j :: 0 <= j < |unit.types| && j != i ==> u2.types[j] == unit.types[j])
      && u2.types[i].name == headerClass
      && u2.types[i].members == unit.types[i].members + [LoaderInitializer(loaderClassName, methodName)]
      && !IsAlreadyInjected(unit.types[i].members, CallText(loaderClassName, methodName))
      && IsAlreadyInjected(u2.types[i].members, CallText(loaderClassName, methodName))
  {
    var i := FindClass(unit.types, headerClass).value;
    var u2 := InjectUnit(unit, headerClass, loaderClassName, methodName).unit;
    LoaderInitBlockCalls(loaderClassName, methodName);
    assert CallsLoader(u2.types[i].members[|u2.types[i].members| - 1], CallText(loaderClassName, methodName));
  }

  /** Injecting twice is injecting once: the second pass finds the block and does nothing. */
  lemma {:induction false} InjectIdempotent(unit: CompilationUnit, headerClass: string, loaderClassName: string,
                                            methodName: string)
    requires InjectUnit(unit, headerClass, loaderClassName, methodName).Injected?
    ensures InjectUnit(InjectUnit(unit, headerClass, loaderClassName, methodName).unit,
                       headerClass, loaderClassName, methodName) == AlreadyInjected
  {
    var u2 := InjectUnit(unit, headerClass, loaderClassName, methodName).unit;
    InjectAppendsOneBlock(unit, headerClass, loaderClassName, methodName);
    FindClassByNames(unit.types, u2.types, headerClass);
  }

  /** `inject` on a file tree of parsed sources: the outcome and the new tree. */
  function InjectFile(fs: FileSystem<CompilationUnit>, target: Path, headerClass: string,
                      loaderClassName: string, methodName: string): (Result<(), Exception>, FileSystem<CompilationUnit>)
  {
    if target !in fs || fs[target].Directory? then (Failure(IOException(Render(target))), fs)
    else match InjectUnit(fs[target].data, headerClass, loaderClassName, methodName)
      case Injected(u) => (Success(()), fs[target := RegularFile(u)])
      case _ => (Success(()), fs)
  }

  /** The file is rewritten exactly when the class is there and not yet injected. */
  predicate Rewrites(fs: FileSystem<CompilationUnit>, target: Path, headerClass: string,
                     loaderClassName: string, methodName: string)
  {
    target in fs && fs[target].RegularFile?
    && InjectUnit(fs[target].data, headerClass, loaderClassName, methodName).Injected?
  }

  /** A rewrite replaces the target's unit by the injected one and touches nothing else. */
  lemma InjectFileRewrites(fs: FileSystem<CompilationUnit>, target: Path, headerClass: string,
                           loaderClassName: string, methodName: string)
    requires Rewrites(fs, target, headerClass, loaderClassName, methodName)
    ensures InjectFile(fs, target, headerClass, loaderClassName, methodName) ==
      (Success(()), fs[target := RegularFile(InjectUnit(fs[target].data, headerClass, loaderClassName, methodName).unit)])
  {
  }

  /** Over files: a second `inject` writes nothing and changes nothing. */
  lemma InjectFileIdempotent(fs: FileSystem<CompilationUnit>, target: Path, headerClass: string,
                             loaderClassName: string, methodName: string)
    requires InjectFile(fs, target, headerClass, loaderClassName, methodName).0.Success?
    ensures var fs2 := InjectFile(fs, target, headerClass, loaderClassName, methodName).1;
      && !Rewrites(fs2, target, headerClass, loaderClassName, methodName)
      && InjectFile(fs2, target, headerClass, loaderClassName, methodName) == (Success(()), fs2)
  {
    if Rewrites(fs, target, headerClass, loaderClassName, methodName) {
      InjectIdempotent(fs[target].data, headerClass, loaderClassName, methodName);
    }
  }

  /** A unit without the class, or with the call already present, is left exactly as it was. */
  lemma InjectFileNoOp(fs: FileSystem<CompilationUnit>, target: Path, headerClass: string,
                       loaderClassName: string, methodName: string)
    requires target in fs && fs[target].RegularFile?
    requires !Rewrites(fs, target, headerClass, loaderClassName, methodName)
    ensures InjectFile(fs, target, headerClass, loaderClassName, methodName) == (Success(()), fs)
    ensures InjectUnit(fs[target].data, headerClass, loaderClassName, methodName).ClassMissing? <==>
      forall j :: 0 <= j < |fs[target].data.types| ==> fs[target].data.types[j].name != headerClass
  {
  }

  /** The injector: its target file, the names it uses, the parsed sources and the files it rewrote. */
  class NativeLibraryLoaderInjector {
    const target: Path
    const headerClass: string
    const loaderClassName: string
    const staticLoaderMethodName: string
    var fs: FileSystem<CompilationUnit>
    var writes: seq<Path>

    constructor(target: Path, headerClass: string, loaderClassName: string, staticLoaderMethodName: string,
                fs: FileSystem<CompilationUnit>)
      ensures this.target == target && this.headerClass == headerClass
      ensures this.loaderClassName == loaderClassName && this.staticLoaderMethodName == staticLoaderMethodName
      ensures this.fs == fs && writes == []
    {
      this.target := target;
      this.headerClass := headerClass;
      this.loaderClassName := loaderClassName;
      this.staticLoaderMethodName := staticLoaderMethodName;
      this.fs := fs;
      writes := [];
    }

    /**
     * `inject`: parse the target, find the class (a missing class only logs a
     * warning), skip an injected class, else append the block and write.
     */
    method Inject() returns (r: Result<(), Exception>)
      modifies this
      ensures (r, fs) == InjectFile(old(fs), target, headerClass, loaderClassName, staticLoaderMethodName)
      ensures writes == old(writes) +
        (if Rewrites(old(fs), target, headerClass, loaderClassName, staticLoaderMethodName) then [target] else [])
    {
      if target !in fs || fs[target].Directory? {
        return Failure(IOException(Render(target)));
      }
      var unit := fs[target].data;
      var index := FindClass(unit.types, headerClass);
      if index.None? {
        assert InjectUnit(unit, headerClass, loaderClassName, staticLoaderMethodName) == ClassMissing;
        return Success(());
      }
      var customClass := unit.types[index.value];
      if IsAlreadyInjected(customClass.members, CallText(loaderClassName, staticLoaderMethodName)) {
        assert InjectUnit(unit, headerClass, loaderClassName, staticLoaderMethodName) == AlreadyInjected;
        return Success(());
      }
      customClass := customClass.(members := customClass.members
                                  + [LoaderInitializer(loaderClassName, staticLoaderMethodName)]);
      var injected := unit.(types := unit.types[index.value := customClass]);
      assert InjectUnit(unit, headerClass, loaderClassName, staticLoaderMethodName) == Injected(injected);
      fs := fs[target := RegularFile(injected)];
      writes := writes + [target];
      r := Success(());
    }
  }
}
