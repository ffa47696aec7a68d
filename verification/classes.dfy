/**
 * Class metadata standing in for Java reflection. A class is identified by its
 * binary name, and a `World` maps the names the class loader can load to their
 * metadata.
 */
module Classes {

  /** A public constructor: its parameter types (by name) and its annotations (canonical names). */
  datatype Ctor = Ctor(params: seq<string>, annots: seq<string>)

  /**
   * A declared field. `boolValue` is the value `Field.getBoolean` would read
   * when the field is a static `boolean`; it is ignored otherwise.
   */
  datatype FieldInfo = FieldInfo(
    name: string,
    typeName: string,
    annots: seq<string>,
    isStatic: bool,
    isPublic: bool,
    boolValue: bool)

  /**
   * A class or interface. `ctors` are its public constructors in reflection
   * order, `fields` its declared fields in declaration order, `annots` the
   * canonical names of its declared annotations, and `supertypes` the names of
   * every class and interface it extends or implements, transitively.
   */
  datatype ClassInfo = ClassInfo(
    name: string,
    simpleName: string,
    pkg: string,
    isInterface: bool,
    isAbstract: bool,
    ctors: seq<Ctor>,
    fields: seq<FieldInfo>,
    annots: seq<string>,
    supertypes: set<string>)

  /** The classes the class loader can supply, by binary name. */
  type World = map<string, ClassInfo>

  /** `target.isAssignableFrom(c)`: `c` is `target` or one of its subtypes. */
  predicate IsAssignableFrom(target: ClassInfo, c: ClassInfo) {
    target.name == c.name || target.name in c.supertypes
  }
}
