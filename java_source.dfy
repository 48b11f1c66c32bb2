/**
 * The parsed view of a Java source file that the loader generator and the
 * injector work on: a compilation unit is a package name and its top-level
 * classes, a class is its name and its members in declaration order, and an
 * initializer keeps the printed text of its body.
 */
module JavaSource {
  import opened Wrappers

  datatype Member =
    | Field(name: string)
    | Constructor
    | MethodDecl(name: string, isPublic: bool)
    | Initializer(isStatic: bool, body: string)

  datatype ClassDecl = ClassDecl(name: string, members: seq<Member>)

  datatype CompilationUnit = CompilationUnit(packageName: string, types: seq<ClassDecl>)

  /** `getClassByName`: the position of the first top-level class with that name. */
  function FindClass(types: seq<ClassDecl>, name: string): (r: Option<nat>)
    ensures r.Some? ==> r.value < |types| && types[r.value].name == name
    ensures r.Some? ==> forall j :: 0 <= j < r.value ==> types[j].name != name
    ensures r.None? <==> forall j :: 0 <= j < |types| ==> types[j].name != name
  {
    if |types| == 0 then None
    else if types[0].name == name then Some(0)
    else match FindClass(types[1..], name)
      case None => None
      case Some(i) => Some(i + 1)
  }

  /** The lookup depends on the class names only. */
  lemma FindClassByNames(a: seq<ClassDecl>, b: seq<ClassDecl>, name: string)
    requires |a| == |b|
    requires forall j :: 0 <= j < |a| ==> a[j].name == b[j].name
    ensures FindClass(a, name) == FindClass(b, name)
  {
  }
}
