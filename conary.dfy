/**
 * The collaborators the build-requirement policies see, as plain data: the
 * dependency model, the recipe being cooked (its declared build
 * requirements, its components and the files it packages) and the
 * installed-system database.
 */
module Conary {

  /** The dependency classes; the enforcers each handle one of the first five. */
  datatype DepClass = SonameClass | PythonClass | JavaClass | CILClass | PerlClass | OtherClass(tag: string)

  /** One dependency: its class, its name and its flags. */
  datatype Capability = Capability(cls: DepClass, name: string, flags: set<string>)

  type DepSet = set<Capability>

  /** A resolved build requirement: a trove name and the dependencies it requires at run time. */
  datatype Trove = Trove(name: string, requirements: DepSet)

  /** A component of the package being built, with what it provides and requires. */
  datatype Component = Component(provisions: DepSet, requirements: DepSet)

  /** What content sniffing says about a file: a script naming its interpreter, or anything else. */
  datatype Magic = Script(interpreter: string) | NotScript

  /** A packaged file: whether it has real contents, its requirements and its magic. */
  datatype FileRecord = FileRecord(hasContents: bool, requirements: DepSet, magic: Magic)

  /**
   * The recipe as the policies use it: the declared build requirement specs
   * and the map resolving them to troves, the package's components by name,
   * the packaged files by path, the build directory, and whether
   * dependency checking is switched off.
   */
  datatype Recipe = Recipe(
    buildRequires: seq<string>,
    buildReqMap: map<string, Trove>,
    components: map<string, Component>,
    pathMap: map<string, FileRecord>,
    builddir: string,
    ignoreDeps: bool)

  /**
   * The installed-system database: the names of troves providing each
   * dependency (a dependency absent from the map has no provider), the names of
   * installed troves, the troves owning each path, and the transitive
   * provides closure of a list of requirement sets.
   */
  datatype Db = Db(
    providers: map<Capability, seq<string>>,
    installed: set<string>,
    owners: map<string, set<string>>,
    closure: seq<DepSet> -> map<DepSet, set<string>>)

  /** The troves owning `path`; none when the database does not know the path. */
  function Owners(db: Db, path: string): set<string> {
    if path in db.owners then db.owners[path] else {}
  }
}
