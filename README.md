# Getitem iterator and root `object` type, modelled in Dafny

This project models two small pieces of the Pycopy/MicroPython object model.

- **The getitem iterator adaptor** (`py/objgetitemiter.c`). It turns an object that supports
  item access, or a method bound to a receiver, into an iterator. The adaptor holds three slots:
  the target (or method), an optional receiver, and an integer cursor that starts at 0. Each
  step does one of two things. Without a receiver it loads `target[cursor]`. With a receiver it
  calls `method(receiver, cursor)`. A produced value advances the cursor by one. A raised
  exception whose type is exactly `StopIteration` or `IndexError` becomes the stop sentinel, and
  the cursor stays put. Any other exception is re-raised unchanged. No "done" flag is kept, and
  asking the adaptor for an iterator returns the adaptor itself.
- **The root `object` type** (`py/objobject.c`). Its `make_new` slot accepts no arguments and
  allocates a record tagged with the requested type. `__init__` accepts any arguments after
  `self` and returns `None`. `__new__` accepts only a user class as `cls` and hands the remaining arguments to
  instance creation. `__setattr__` and `__delattr__` first check that the receiver is an
  instance of a user class, then that the name is a `str`. After the checks, set inserts or
  overwrites the name in the instance's `members` map. Delete removes the name, or raises
  `AttributeError("no such attribute")` when the name is absent.

Layout:

- `objects.dfy` (module `Objects`): type identities (`TypeId`), object values (`Obj`), heap
  records with their attribute store (`Record`), `TypeOf` (mp_obj_get_type), raised exceptions
  (`Exc`), and `Outcome`, which is either `Value(v)` or `Raised(exc)`. The runtime's
  non-local raise becomes this result type. `Obj` is laid out so that an object's type decides
  its representation: an object of a user class is always a record with a `members` map, an
  object of type `type` is a type object, and an object of type `str` is a string.
- `getitem_iter.dfy` (module `GetItemIter`): the class `GetItemIterator` with `target`, `recv`
  and `cursor` fields. Its method `Next` is proved against the function `IterNext`.
  `Run` iterates `IterNext`, and lemmas about `Run` state what a sequence of steps produces.
- `object_type.dfy` (module `ObjectType`): `MakeNew`, `ObjectInit`, `ObjectNew`, and the
  store updates. `SetAttr` and `DelAttr` mutate a record's `members` in place. They are proved
  against the value-level functions `SetAttrSpec` and `DelAttrSpec`.

The runtime operations the core calls but does not define are parameters of the model, not
code. They are `mp_obj_subscr`, `mp_call_method_n_kw` (the `Env` of each step) and
`mp_obj_new_instance` (the `newInstance` argument of `ObjectNew`). The root type descriptor
`mp_type_object` appears as the type identity `ObjectTypeId` (`Builtin("object")`), and
`MakeNew` is its `make_new` slot.

Three details of the code shape the model:

- In bound-method mode the method is called with `mp_call_method_n_kw(1, 0, args)`
  (`py/objgetitemiter.c:48`). That passes the cursor as the one positional argument, so
  `Attempt` calls the method with `[SmallInt(cursor)]`.
- `MP_OBJ_SENTINEL` in the value position of `mp_obj_subscr` (`py/objgetitemiter.c:46`)
  selects a plain load, so the model's `subscr` is a load of `target[cursor]`.
- Every instance record holds an inline `members` map, which set and delete index directly
  (`py/objobject.c:80`, `95`). The model gives every record a map that starts empty.

## Model

| member | source | states |
|---|---|---|
| Objects.TypeOf | py/objobject.c:71 | an object's type decides its representation: type `type` exactly for type objects, `str` exactly for strings, and a user class only for instance records, whose tag it is |
| Objects.Record.constructor | py/objobject.c:39-40 | a new record carries the given type tag, set once; its attribute store starts empty, which has a source counterpart only for records of a user class (see Left out) |
| GetItemIter.IterNext | py/objgetitemiter.c:39-64 | a step yields a value exactly when the access at the cursor succeeds, and then the value is the one that access gave and the cursor grows by exactly one; it stops exactly when the access raised StopIteration or IndexError (exact type); otherwise it re-raises the very exception the access raised; on a stop or a raise the cursor is unchanged |
| GetItemIter.Run | py/objgetitemiter.c:50 | over any number of steps, the cursor ends exactly as many places further on as values were produced |
| GetItemIter.DrainFrom | py/objgetitemiter.c:45-58 | from cursor c, accesses that give vs[c..] and then end the iteration produce exactly vs[c..] in order followed by one stop, leaving the cursor at len(vs) |
| GetItemIter.SequenceIteration | py/objgetitemiter.c:46-58 | a target whose item i is vs[i] below n and that raises IndexError at n is iterated as exactly vs, then stop, with the cursor at n |
| GetItemIter.MethodIteration | py/objgetitemiter.c:47-58 | a method called on its receiver with the cursor, giving vs[i] below n and raising StopIteration at n, is iterated as exactly vs, then stop |
| GetItemIter.StopRepeats | py/objgetitemiter.c:39-64 | there is no done flag: after a stop, every further step against the same target retries the same cursor and stops again |
| GetItemIter.SubclassPropagates | py/objgetitemiter.c:55-62 | an exception of a user subclass of IndexError or StopIteration is not absorbed: it is re-raised unchanged and the cursor stays put |
| GetItemIter.GetItemIterator.constructor | py/objgetitemiter.c:74-80 | a new adaptor holds the given target and receiver unchanged, with cursor 0 |
| GetItemIter.GetItemIterator.GetIter | py/objgetitemiter.c:69 | asking the adaptor for an iterator returns the adaptor itself |
| GetItemIter.GetItemIterator.Next | py/objgetitemiter.c:39-64 | the in-place step: result and new cursor are those of IterNext from the old cursor; a value without a receiver is target[old cursor], with a receiver it is method(receiver, old cursor); the cursor moves by one only on a value |
| Objects.NewException | py/objobject.c:72-77 | a raised exception has the requested type, and a message becomes its one argument while no message gives no arguments, as `mp_raise_TypeError(msg)` and `mp_raise_TypeError(NULL)` do |
| ObjectType.ArgCheckNum | py/objobject.c:38 | the argument check passes exactly when keyword arguments are absent or accepted and the positional count is within bounds; otherwise it raises TypeError |
| ObjectType.MakeNew | py/objobject.c:36-42 | allocation succeeds exactly when there are no positional and no keyword arguments, otherwise TypeError; on success the result is a fresh record whose type is the given type (its empty store has no counterpart in the `mp_obj_object_t` the source allocates; see Left out) |
| ObjectType.ObjectInit | py/objobject.c:45-51 | `__init__`, called through a wrapper that demands at least one positional argument (`self`), returns None whatever else it is given |
| ObjectType.ObjectNew | py/objobject.c:53-65 | `__new__` raises TypeError("arg must be user-type") unless `cls` is a type object naming a user class; otherwise the result is instance creation for that class with every argument but `cls` and the keyword count |
| ObjectType.SetAttrSpec | py/objobject.c:70-82 | set succeeds exactly for a user-class receiver and a str name; the receiver check comes first; a failure raises TypeError and leaves the store unchanged; on success the name maps to the value, the keys are the old keys plus the name, every other entry is unchanged, and None is returned |
| ObjectType.DelAttrSpec | py/objobject.c:85-99 | delete succeeds exactly for a user-class receiver, a str name and a name present in the store; the two TypeError checks come first in the same order as set; an absent name raises AttributeError("no such attribute"); failures leave the store unchanged; on success exactly the name is removed and every other entry is unchanged |
| ObjectType.SetAttr | py/objobject.c:70-82 | in place: a receiver that is not of a user class gets TypeError("arg must be user-type"); for a record, the result and its new store are those of SetAttrSpec from its old store |
| ObjectType.DelAttr | py/objobject.c:85-99 | in place: a receiver that is not of a user class gets TypeError("arg must be user-type"); for a record, the result and its new store are those of DelAttrSpec from its old store |
| ObjectType.SetDeleteRoundTrip | py/objobject.c:79-97 | on a user-class instance, set then delete of a name succeeds, the store ends as it was minus that name, and a second delete raises AttributeError and changes nothing |
| ObjectType.DeleteTwiceFails | py/objobject.c:94-97 | a delete of a name that succeeded cannot succeed again: the second one raises AttributeError |
| ObjectType.LastSetWins | py/objobject.c:80 | setting a name twice leaves the same result and store as setting it once to the second value |
| ObjectType.ObjectInstancesTakeNoAttributes | py/objobject.c:71-73 | a record of type `object` is not of a user class, so both set and delete raise TypeError("arg must be user-type") and leave the store unchanged |

## Left out

- The non-local jump machinery (`nlr_push`, `nlr_pop`, `nlr_raise`) is replaced by the `Outcome` result type. Re-raising "the same exception object" is modelled as returning the same `Exc` value; object identity of exceptions is not modelled.
- `mp_obj_subscr`, `mp_call_method_n_kw` and `mp_obj_new_instance` live in files that are not part of this model. They are function parameters. Side effects they have between two steps are modelled by passing a different `Env` to the next step; `Run` and the lemmas about it assume an unchanging `Env`. Side effects during a step are not modelled (next line).
- `Record` stands for both the bare `mp_obj_object_t` that `object_make_new` allocates (`py/objobject.c:32-34`, `39`), which has no attribute store, and the instance record of a user class, which has one. The empty store of a record made by `MakeNew` has no source counterpart. It cannot be observed for a non-instance tag such as `object`, because set and delete refuse such receivers; `MakeNew` with a user-class tag, which the source never does, would give a record whose store set and delete accept.
- `TypeObj` always has type `type`: metaclasses other than `type` are not modelled, so the failing branch of `mp_obj_is_type(cls, &mp_type_type)` (`py/objobject.c:56`) for a class object of another metaclass cannot be represented. The model only reaches that branch for objects that are not type objects at all.
- GetItemIter.GetItemIterator.Next (`GetItemIterator.Next`): the access is assumed not to change the heap during the step, and in particular not to re-enter the same adaptor. The source reads the cursor slot again after the access (`py/objgetitemiter.c:50`), so a `__getitem__` that itself runs successful steps of the same adaptor leaves the cursor one further on for each nested success, where the model says exactly one more than before. Likewise an access that sets or deletes attributes of some instance changes that instance in the source, while the frame of `Next` (`modifies this`) rules this out.
- `mp_obj_new_instance` and its native-base handling are not modelled: `ObjectNew` only states what it hands over.
- ArgCheckNum: `mp_arg_check_num` lives in `py/argcheck.c`, which is not part of this model. Only the order of its checks and the TypeError kind are modelled. The message texts are not: the exceptions carry no arguments.
- The cursor is an unbounded `nat`. Small-int tagging (`MP_OBJ_NEW_SMALL_INT`) and what happens past the small-int range are not modelled, since the shown code does not define that behaviour.
- Heap allocation (`m_new_obj`) and garbage collection are not modelled beyond `fresh` records.
- The attribute store is a Dafny `map` keyed by the name's characters. Hashing, interned versus heap strings, and the map's growth policy are not modelled.
- Only the configuration with `MICROPY_CPYTHON_COMPAT` and `MICROPY_PY_DELATTR_SETATTR` enabled is modelled.
- The static tables `object_locals_dict_table` and `mp_const_object_tuple_obj` are data, not behaviour, and are not modelled. The other fields of the `it_type` and `mp_type_object` descriptors (their names) are not modelled either.
- `tests/cpydiff/core_import_path.py` only prints a package's `__path__`. It has no logic to model.
