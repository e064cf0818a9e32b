/** The checker's types (`ExprType`, `Primitive`, `FunType`) and their
    conversion from the types written in the program (`From<&Type>`,
    `FunType::from`). The three revisions of the checker rules declare the
    same definitions word for word; they are modelled once, here. */
module CheckerTypes {
  import opened Wrappers
  import Ast

  datatype Primitive = Int | String | Boolean | Char

  datatype ExprType = Primitive(primitive: Primitive) | Array(elem: ExprType) | Range(elem: ExprType) | Unit

  const INT := Primitive(Int)
  const STRING := Primitive(String)
  const BOOLEAN := Primitive(Boolean)
  const CHAR := Primitive(Char)

  /** `From<&Type> for ExprType`: `Int`, `String` and `Boolean` are
      primitives, `Array<T>` with exactly one parameter that is not `Unit`
      is an array, and everything else is `Unit`. */
  function FromType(t: Ast.Type): (r: ExprType)
    ensures r != CHAR && !r.Range?
    ensures t.Simple? ==> (r != Unit <==> t.name in {"Int", "String", "Boolean"})
    ensures r.Array? <==> t.Generic? && t.name == "Array" && |t.params| == 1 && FromType(t.params[0]) != Unit
    ensures r.Array? ==> r.elem == FromType(t.params[0])
  {
    match t
    case Simple(name) =>
      if name == "Int" then INT
      else if name == "String" then STRING
      else if name == "Boolean" then BOOLEAN
      else Unit
    case Generic(name, params) =>
      if |params| != 1 || name != "Array" then Unit
      else
        var param := FromType(params[0]);
        if param != Unit then Array(param) else Unit
  }

  /** The checker types a program can write: no `Char` (the name `Char` is
      not recognised), no range, and arrays only of such types. */
  predicate Writable(ty: ExprType) {
    match ty
    case Primitive(p) => p != Char
    case Array(elem) => Writable(elem)
    case Range(_) => false
    case Unit => false
  }

  /** How each writable type is written. */
  function WriteType(ty: ExprType): (t: Ast.Type)
    requires Writable(ty)
  {
    match ty
    case Primitive(p) =>
      Ast.Simple(match p case Int => "Int" case String => "String" case Boolean => "Boolean")
    case Array(elem) => Ast.Generic("Array", [WriteType(elem)])
  }

  /** Every writable type reads back as itself. */
  lemma {:induction false} FromWriteType(ty: ExprType)
    requires Writable(ty)
    ensures FromType(WriteType(ty)) == ty
  {
    if ty.Array? {
      FromWriteType(ty.elem);
    }
  }

  /** Conversely, a written type maps either to `Unit` or to a writable
      type: `Char` and ranges are never produced, and `Unit` never sits
      inside an array. */
  lemma {:induction false} FromTypeWritable(t: Ast.Type)
    ensures FromType(t) == Unit || Writable(FromType(t))
  {
    match t
    case Simple(_) =>
    case Generic(name, params) =>
      if |params| == 1 && name == "Array" {
        FromTypeWritable(params[0]);
      }
  }

  /** `FunType`: the types of the arguments, in order, and the return type. */
  datatype FunType = FunType(args: seq<ExprType>, retType: ExprType)

  /** `FunType::from`: argument types in declaration order; `Unit` when no
      return type is declared. */
  function FunTypeOf(f: Ast.Fun): (r: FunType)
    ensures |r.args| == |f.args|
    ensures forall i | 0 <= i < |f.args| :: r.args[i] == FromType(f.args[i].1)
    ensures r.retType == if f.retType.Some? then FromType(f.retType.value) else Unit
  {
    FunType(ArgTypes(f.args), if f.retType.Some? then FromType(f.retType.value) else Unit)
  }

  function ArgTypes(args: seq<(string, Ast.Type)>): (r: seq<ExprType>)
    ensures |r| == |args|
    ensures forall i | 0 <= i < |args| :: r[i] == FromType(args[i].1)
  {
    if |args| == 0 then [] else [FromType(args[0].1)] + ArgTypes(args[1..])
  }
}
