/**
 The root `object` type: allocation of a bare record (make_new), the
 `__init__` and `__new__` entries of its locals dictionary, and
 `__setattr__` / `__delattr__`, which add, overwrite and remove entries of the
 dynamic attribute store of an instance of a user class.
 */
module ObjectType {
  import opened Objects

  const UserTypeMessage := "arg must be user-type"
  const NoSuchAttributeMessage := "no such attribute"

  /** TypeError("arg must be user-type"), raised when the receiver or `cls` is
      not of a user class. */
  function UserTypeError(): Exc {
    NewException(TypeErrorType, Some(UserTypeMessage))
  }

  /** The TypeError without a message raised for a name that is not a str. */
  function NameTypeError(): Exc {
    NewException(TypeErrorType, None)
  }

  /** AttributeError("no such attribute"), raised by a delete of an absent name. */
  function NoSuchAttributeError(): Exc {
    NewException(AttributeErrorType, Some(NoSuchAttributeMessage))
  }

  /** mp_arg_check_num: keyword arguments are refused first unless taken, then
      the positional count must lie in `min..max`. Either failure is a TypeError. */
  function ArgCheckNum(nArgs: nat, nKw: nat, min: nat, max: nat, takesKw: bool): (r: Option<Exc>)
    ensures r.None? <==> (nKw == 0 || takesKw) && min <= nArgs <= max
    ensures r.Some? ==> r.value.typ == TypeErrorType
  {
    if nKw > 0 && !takesKw then Some(Exc(TypeErrorType, []))
    else if nArgs < min || nArgs > max then Some(Exc(TypeErrorType, []))
    else None
  }

  /** object_make_new, the make_new slot of the `object` type descriptor: takes
      no argument at all, then allocates a fresh record tagged with `typ`. */
  method MakeNew(typ: RecordTypeId, nArgs: nat, nKw: nat) returns (r: Outcome)
    ensures r.Value? <==> nArgs == 0 && nKw == 0
    ensures r.Raised? ==> r.exc.typ == TypeErrorType
    ensures r.Value? ==> r.v.RecordRef? && fresh(r.v.rec)
    ensures r.Value? ==> TypeOf(r.v) == typ && r.v.rec.members == map[]
  {
    var err := ArgCheckNum(nArgs, nKw, 0, 0, false);
    if err.Some? {
      return Raised(err.value);
    }
    var o := new Record(typ);
    r := Value(RecordRef(o));
  }

  /** object.__init__: its wrapper demands at least `self`; it accepts any
      further arguments and does nothing. */
  function ObjectInit(args: seq<Obj>, kwargs: map<string, Obj>): (r: Obj)
    requires |args| >= 1
    ensures r == NoneObj
  {
    NoneObj
  }

  /** `cls` is a type object and the type it names is a user class. */
  predicate IsUserClass(cls: Obj) {
    TypeOf(cls) == TypeType && IsInstanceType(cls.t)
  }

  /** object.__new__(cls, *args, **kw): refuses a `cls` that is not a user class,
      otherwise hands `cls`, the remaining positional arguments and the keyword
      count to instance creation (`newInstance`, mp_obj_new_instance). */
  function ObjectNew(args: seq<Obj>, nKw: nat, newInstance: (TypeId, seq<Obj>, nat) -> Outcome): (r: Outcome)
    requires |args| >= 1
    ensures !IsUserClass(args[0]) ==> r == Raised(UserTypeError())
    ensures IsUserClass(args[0]) ==> r == newInstance(args[0].t, args[1..], nKw)
  {
    var cls := args[0];
    if !IsUserClass(cls) then Raised(UserTypeError()) else newInstance(cls.t, args[1..], nKw)
  }

  /** A store update: what the call returned and the attribute store afterwards. */
  datatype AttrUpdate = AttrUpdate(result: Outcome, members: map<string, Obj>)

  /** object.__setattr__ on a receiver of type `typ` whose store is `members`.
      The receiver is checked before the name; a failed check leaves the store
      as it was. On success the name maps to `value`, every other entry is
      untouched, and None is returned. */
  function SetAttrSpec(typ: TypeId, members: map<string, Obj>, attr: Obj, value: Obj): (u: AttrUpdate)
    ensures u.result.Value? <==> IsInstanceType(typ) && attr.Str?
    ensures !IsInstanceType(typ) ==> u == AttrUpdate(Raised(UserTypeError()), members)
    ensures IsInstanceType(typ) && !attr.Str? ==> u == AttrUpdate(Raised(NameTypeError()), members)
    ensures u.result.Value? ==> u.result.v == NoneObj
    ensures u.result.Value? ==> u.members.Keys == members.Keys + {attr.chars}
    ensures u.result.Value? ==> u.members[attr.chars] == value
    ensures u.result.Value? ==> forall k :: k in members && k != attr.chars ==> u.members[k] == members[k]
  {
    if !IsInstanceType(typ) then AttrUpdate(Raised(UserTypeError()), members)
    else if !attr.Str? then AttrUpdate(Raised(NameTypeError()), members)
    else AttrUpdate(Value(NoneObj), members[attr.chars := value])
  }

  /** object.__delattr__ on a receiver of type `typ` whose store is `members`:
      the same two checks in the same order, then the name must be present.
      On success exactly that entry is removed and None is returned. */
  function DelAttrSpec(typ: TypeId, members: map<string, Obj>, attr: Obj): (u: AttrUpdate)
    ensures u.result.Value? <==> IsInstanceType(typ) && attr.Str? && attr.chars in members
    ensures !IsInstanceType(typ) ==> u == AttrUpdate(Raised(UserTypeError()), members)
    ensures IsInstanceType(typ) && !attr.Str? ==> u == AttrUpdate(Raised(NameTypeError()), members)
    ensures IsInstanceType(typ) && attr.Str? && attr.chars !in members ==>
      u == AttrUpdate(Raised(NoSuchAttributeError()), members)
    ensures u.result.Value? ==> u.result.v == NoneObj
    ensures u.result.Value? ==> u.members.Keys == members.Keys - {attr.chars}
    ensures u.result.Value? ==> forall k :: k in u.members ==> u.members[k] == members[k]
  {
    if !IsInstanceType(typ) then AttrUpdate(Raised(UserTypeError()), members)
    else if !attr.Str? then AttrUpdate(Raised(NameTypeError()), members)
    else if attr.chars !in members then AttrUpdate(Raised(NoSuchAttributeError()), members)
    else AttrUpdate(Value(NoneObj), members - {attr.chars})
  }

  /** The heap objects an object value stands for. */
  function Footprint(o: Obj): set<object> {
    if o.RecordRef? then {o.rec} else {}
  }

  /** object.__setattr__(self, attr, value), updating the receiver's store in place. */
  method SetAttr(self: Obj, attr: Obj, value: Obj) returns (r: Outcome)
    modifies Footprint(self)
    ensures !IsInstanceType(TypeOf(self)) ==> r == Raised(UserTypeError())
    ensures self.RecordRef? ==>
      AttrUpdate(r, self.rec.members) == SetAttrSpec(self.rec.typ, old(self.rec.members), attr, value)
  {
    if !IsInstanceType(TypeOf(self)) {
      return Raised(UserTypeError());
    }
    if !attr.Str? {
      return Raised(NameTypeError());
    }
    var rec := self.rec;
    rec.members := rec.members[attr.chars := value];
    r := Value(NoneObj);
  }

  /** object.__delattr__(self, attr), removing from the receiver's store in place. */
  method DelAttr(self: Obj, attr: Obj) returns (r: Outcome)
    modifies Footprint(self)
    ensures !IsInstanceType(TypeOf(self)) ==> r == Raised(UserTypeError())
    ensures self.RecordRef? ==>
      AttrUpdate(r, self.rec.members) == DelAttrSpec(self.rec.typ, old(self.rec.members), attr)
  {
    if !IsInstanceType(TypeOf(self)) {
      return Raised(UserTypeError());
    }
    if !attr.Str? {
      return Raised(NameTypeError());
    }
    var rec := self.rec;
    if attr.chars !in rec.members {
      return Raised(NoSuchAttributeError());
    }
    rec.members := rec.members - {attr.chars};
    r := Value(NoneObj);
  }

  /** Set then delete: the delete succeeds and leaves the store as it was before
      the set, minus the name; a second delete of the name fails with
      AttributeError and changes nothing. */
  lemma SetDeleteRoundTrip(typ: TypeId, members: map<string, Obj>, name: string, value: Obj)
    requires IsInstanceType(typ)
    ensures var set1 := SetAttrSpec(typ, members, Str(name), value);
      var del1 := DelAttrSpec(typ, set1.members, Str(name));
      var del2 := DelAttrSpec(typ, del1.members, Str(name));
      && set1.result == Value(NoneObj) && set1.members[name] == value
      && del1.result == Value(NoneObj) && del1.members == members - {name}
      && del2 == AttrUpdate(Raised(NoSuchAttributeError()), del1.members)
  {
  }

  /** A delete of a name that succeeded cannot succeed again. */
  lemma DeleteTwiceFails(typ: TypeId, members: map<string, Obj>, attr: Obj)
    requires DelAttrSpec(typ, members, attr).result.Value?
    ensures DelAttrSpec(typ, DelAttrSpec(typ, members, attr).members, attr).result == Raised(NoSuchAttributeError())
  {
  }

  /** A later set of the same name overwrites an earlier one. */
  lemma LastSetWins(typ: TypeId, members: map<string, Obj>, attr: Obj, v1: Obj, v2: Obj)
    ensures SetAttrSpec(typ, SetAttrSpec(typ, members, attr, v1).members, attr, v2)
      == SetAttrSpec(typ, members, attr, v2)
  {
  }

  /** A plain `object()` is not of a user class, so it takes no attributes:
      both set and delete raise TypeError("arg must be user-type"). */
  lemma ObjectInstancesTakeNoAttributes(members: map<string, Obj>, attr: Obj, value: Obj)
    ensures SetAttrSpec(ObjectTypeId, members, attr, value) == AttrUpdate(Raised(UserTypeError()), members)
    ensures DelAttrSpec(ObjectTypeId, members, attr) == AttrUpdate(Raised(UserTypeError()), members)
  {
  }
}
