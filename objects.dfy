/**
 The part of the runtime's object model that both the getitem iterator
 adaptor and the root `object` type rely on: type identities, object values,
 raised exceptions and the outcome of an operation that may raise.

 A raise is not a non-local jump here: every operation that may raise returns
 an `Outcome`, which is either the value it produced or the exception it raised.
 */
module Objects {

  datatype Option<+T> = None | Some(value: T)

  /** The identity of a type object. Built-in types are known by name; a class
      made by a `class` statement (an "instance type") has a unique id and a base. */
  datatype TypeId = Builtin(name: string) | UserType(id: nat, base: TypeId)

  const TypeType: TypeId := Builtin("type")
  const ObjectTypeId: TypeId := Builtin("object")
  const NoneType: TypeId := Builtin("NoneType")
  const IntType: TypeId := Builtin("int")
  const StrType: TypeId := Builtin("str")
  const StopIterationType: TypeId := Builtin("StopIteration")
  const IndexErrorType: TypeId := Builtin("IndexError")
  const TypeErrorType: TypeId := Builtin("TypeError")
  const AttributeErrorType: TypeId := Builtin("AttributeError")

  /** mp_obj_is_instance_type: the type was created by a class statement, so its
      objects are instance records with a `members` map. */
  predicate IsInstanceType(t: TypeId) {
    t.UserType?
  }

  /** A built-in type whose objects this model does not look inside (lists,
      bound methods, ...). Types with a representation of their own are excluded. */
  predicate IsOpaqueType(t: TypeId) {
    t.Builtin? && t.name !in {"type", "str", "int", "NoneType"}
  }

  type OpaqueTypeId = t: TypeId | IsOpaqueType(t) witness Builtin("list")

  /** The types a heap record can be tagged with: instance types, and the
      opaque built-in types such as `object` itself. */
  type RecordTypeId = t: TypeId | IsInstanceType(t) || IsOpaqueType(t) witness ObjectTypeId

  /** A heap record tagged with its type; the tag is set once, at allocation.
      It stands both for the bare record of `object` and for the instance record
      of a user class; only the latter has the dynamic attribute store `members`
      in the runtime, and only for it do set and delete reach the store. */
  class Record {
    const typ: RecordTypeId
    var members: map<string, Obj>

    constructor (typ: RecordTypeId)
      ensures this.typ == typ && members == map[]
    {
      this.typ := typ;
      members := map[];
    }
  }

  datatype Obj =
    | NoneObj
    | SmallInt(value: int)
    | Str(chars: string)
    | TypeObj(t: TypeId)
    | RecordRef(rec: Record)
    | Opaque(typ: OpaqueTypeId, id: nat)

  /** mp_obj_get_type. The type of an object decides how it is represented. */
  function TypeOf(o: Obj): (t: TypeId)
    ensures t == TypeType <==> o.TypeObj?
    ensures t == StrType <==> o.Str?
    ensures IsInstanceType(t) ==> o.RecordRef? && t == o.rec.typ
  {
    match o
    case NoneObj => NoneType
    case SmallInt(_) => IntType
    case Str(_) => StrType
    case TypeObj(_) => TypeType
    case RecordRef(rec) => rec.typ
    case Opaque(t, _) => t
  }

  /** A raised exception object: its type and its argument tuple. */
  datatype Exc = Exc(typ: TypeId, args: seq<Obj>)

  /** What an operation that may raise gives back. */
  datatype Outcome = Value(v: Obj) | Raised(exc: Exc)

  /** mp_raise_msg / mp_raise_TypeError: a message becomes the one argument of
      the exception; no message gives an exception without arguments. */
  function NewException(t: TypeId, msg: Option<string>): (e: Exc)
    ensures e.typ == t
    ensures msg.Some? <==> |e.args| == 1
    ensures msg.None? ==> e.args == []
    ensures msg.Some? ==> e.args[0] == Str(msg.value)
  {
    match msg
    case None => Exc(t, [])
    case Some(m) => Exc(t, [Str(m)])
  }
}
