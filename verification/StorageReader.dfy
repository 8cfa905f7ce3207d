/**
 Reading Solidity variables out of contract storage, whole or along a path of accessors, by the
 compiler's storage layout. Primitive decoding, hashing and storage words are parameters.
 */
module StorageReader {
  import opened Wrappers
  import opened Powers
  import AccessorParser
  import Sequences

  datatype Member = Member(name: string, slot: nat, offset: nat, typ: string)

  datatype TypeInfo =
    | Primitive(size: nat)
    | StaticArray(base: string, length: nat, size: nat)
    | DynamicArray(base: string, size: nat)
    | Struct(members: seq<Member>, size: nat)
    | Mapping(key: string, value: string, size: nat)

  datatype Variable = Variable(name: string, slot: nat, offset: nat, typ: string)

  /** Values as the tool prints them; a mapping cannot be read without a key. */
  datatype Value = Leaf(text: string) | Items(items: seq<Value>) | Fields(fields: map<string, Value>) | Undefined

  datatype ReadError = UnknownType | InvalidField | InvalidIndex | Unfinished | InvalidName

  datatype Contract = Contract(
    types: map<string, TypeInfo>,
    word: nat -> nat,
    hash: nat -> nat,
    hashKey: (string, string, nat) -> nat,
    primitive: (nat, nat, string) -> string,
    number: string -> Option<nat>)

  /** What the compiler guarantees: sizes fill slots or fit into one, and labels of a struct differ. */
  predicate WellFormed(c: Contract) {
    forall t :: t in c.types ==>
      && 1 <= c.types[t].size && (c.types[t].size < 32 || c.types[t].size % 32 == 0)
      && (c.types[t].Struct? ==> DistinctLabels(c.types[t].members))
  }

  predicate DistinctLabels(ms: seq<Member>) {
    forall i, j :: 0 <= i < j < |ms| ==> ms[i].name != ms[j].name
  }

  // ----- where array elements live

  /** How many elements share one slot. */
  function PerSlot(size: nat): (n: nat)
    requires 1 <= size < 32
    ensures n >= 1 && n * size <= 32 < (n + 1) * size
  {
    MultiplesBelow(32, size, 1);
    32 / size
  }

  function CellSlot(slot: nat, size: nat, i: nat): nat
    requires size >= 1
  {
    if size < 32 then slot + i / PerSlot(size) else slot + i * size / 32
  }

  function CellShift(size: nat, i: nat): nat
    requires size >= 1
  {
    if size < 32 then size * (i % PerSlot(size)) else 0
  }

  function ArrayStart(c: Contract, info: TypeInfo, slot: nat): nat {
    if info.DynamicArray? then c.hash(slot) else slot
  }

  function ArrayLength(c: Contract, info: TypeInfo, slot: nat): nat
    requires info.StaticArray? || info.DynamicArray?
  {
    if info.DynamicArray? then c.word(slot) else info.length
  }

  // ----- reading a whole variable; `fuel` bounds the nesting depth that is followed

  function Read(c: Contract, fuel: nat, slot: nat, shift: nat, t: string): Result<Value, ReadError>
    requires WellFormed(c)
    decreases fuel, 0, 0
  {
    if fuel == 0 then Err(Unfinished)
    else if t !in c.types then Err(UnknownType)
    else
      var info := c.types[t];
      if info.StaticArray? || info.DynamicArray? then
        if info.base !in c.types then Err(UnknownType) else
          var items :- ReadItems(c, fuel - 1, ArrayStart(c, info, slot), info.base, 0, ArrayLength(c, info, slot));
          Ok(Items(items))
      else if info.Struct? then
        var fields :- ReadFields(c, fuel - 1, slot, info.members);
        Ok(Fields(fields))
      else if info.Mapping? then Ok(Undefined)
      else Ok(Leaf(c.primitive(slot, shift, t)))
  }

  /** Elements i to length of the array at `start`. */
  function ReadItems(c: Contract, fuel: nat, start: nat, base: string, i: nat, length: nat)
    : Result<seq<Value>, ReadError>
    requires WellFormed(c) && base in c.types
    decreases fuel, 1, length - i
  {
    if i >= length then Ok([]) else
      var size := c.types[base].size;
      var first :- Read(c, fuel, CellSlot(start, size, i), CellShift(size, i), base);
      var rest :- ReadItems(c, fuel, start, base, i + 1, length);
      Ok([first] + rest)
  }

  function ReadFields(c: Contract, fuel: nat, slot: nat, ms: seq<Member>): Result<map<string, Value>, ReadError>
    requires WellFormed(c)
    decreases fuel, 1, |ms|
  {
    if ms == [] then Ok(map[]) else
      var last := ms[|ms| - 1];
      var rest :- ReadFields(c, fuel, slot, ms[..|ms| - 1]);
      var v :- Read(c, fuel, slot + last.slot, last.offset, last.typ);
      Ok(rest[last.name := v])
  }

  // ----- reading along a path; the next accessor is popped from the end of `params`

  function FindMember(ms: seq<Member>, name: string): (r: Option<Member>)
    ensures r.Some? ==> r.value in ms && r.value.name == name
    ensures r.None? ==> forall i :: 0 <= i < |ms| ==> ms[i].name != name
  {
    if ms == [] then None else if ms[0].name == name then Some(ms[0]) else FindMember(ms[1..], name)
  }

  function ReadPart(c: Contract, fuel: nat, slot: nat, shift: nat, t: string, params: seq<string>)
    : Result<Value, ReadError>
    requires WellFormed(c)
    decreases |params|
  {
    if params == [] then Read(c, fuel, slot, shift, t)
    else if fuel == 0 then Err(Unfinished)
    else if t !in c.types then Err(UnknownType)
    else
      var info, last, rest := c.types[t], params[|params| - 1], params[..|params| - 1];
      if info.StaticArray? || info.DynamicArray? then
        if c.number(last).None? then Err(InvalidIndex)
        else if info.base !in c.types then Err(UnknownType)
        else
          var i, size := c.number(last).value, c.types[info.base].size;
          var start := ArrayStart(c, info, slot);
          ReadPart(c, fuel - 1, CellSlot(start, size, i), CellShift(size, i), info.base, rest)
      else if info.Struct? then
        var member := FindMember(info.members, last);
        if member.None? then Err(InvalidField)
        else ReadPart(c, fuel - 1, slot + member.value.slot, member.value.offset, member.value.typ, rest)
      else if info.Mapping? then ReadPart(c, fuel - 1, c.hashKey(last, info.key, slot), 0, info.value, rest)
      else Ok(Leaf(c.primitive(slot, shift, t)))
  }

  /** The component of a read value that a path leads to; a primitive ignores further accessors. */
  function Project(c: Contract, v: Value, params: seq<string>): Result<Value, ReadError>
    decreases |params|
  {
    if params == [] then Ok(v)
    else
      var last, rest := params[|params| - 1], params[..|params| - 1];
      match v
      case Items(items) =>
        var i := c.number(last);
        if i.Some? && i.value < |items| then Project(c, items[i.value], rest) else Err(InvalidIndex)
      case Fields(fields) => if last in fields then Project(c, fields[last], rest) else Err(InvalidField)
      case Leaf(_) => Ok(v)
      case Undefined => Err(InvalidField)
  }

  lemma {:induction false} ReadItemsAt(c: Contract, fuel: nat, start: nat, base: string, i: nat, length: nat, k: nat)
    requires WellFormed(c) && base in c.types
    requires ReadItems(c, fuel, start, base, i, length).Ok? && i <= k
    ensures var items := ReadItems(c, fuel, start, base, i, length).value;
      var size := c.types[base].size;
      && |items| == (if i <= length then length - i else 0)
      && (k < length ==> Read(c, fuel, CellSlot(start, size, k), CellShift(size, k), base) == Ok(items[k - i]))
    decreases length - i
  {
    if i < length {
      ReadItemsAt(c, fuel, start, base, i + 1, length, if i == k then i + 1 else k);
    }
  }

  lemma {:induction false} ReadFieldsAt(c: Contract, fuel: nat, slot: nat, ms: seq<Member>, m: Member)
    requires WellFormed(c) && DistinctLabels(ms) && ReadFields(c, fuel, slot, ms).Ok?
    ensures var fields := ReadFields(c, fuel, slot, ms).value;
      && (forall l :: l in fields ==> exists j :: 0 <= j < |ms| && ms[j].name == l)
      && (m in ms ==> m.name in fields && Read(c, fuel, slot + m.slot, m.offset, m.typ) == Ok(fields[m.name]))
    decreases |ms|
  {
    if ms == [] {
    } else {
      var rest, last := ms[..|ms| - 1], ms[|ms| - 1];
      ReadFieldsAt(c, fuel, slot, rest, m);
      var fields := ReadFields(c, fuel, slot, ms).value;
      forall l | l in fields
        ensures exists j :: 0 <= j < |ms| && ms[j].name == l
      {
        if l == last.name {
          assert ms[|ms| - 1].name == l;
        } else {
          var j :| 0 <= j < |rest| && rest[j].name == l;
          assert ms[j].name == l;
        }
      }
      assert m in ms ==> m == last || m in rest;
    }
  }

  // ----- where everything is read from

  /** Element i of an array that starts at slot `start`: elements below 32 bytes share slots, others fill whole ones. */
  function Element(c: Contract, fuel: nat, start: nat, base: string, i: nat): Result<Value, ReadError>
    requires WellFormed(c) && base in c.types
  {
    var size := c.types[base].size;
    InSlots(size, i);
    if size < 32 then Read(c, fuel, start + i / (32 / size), size * (i % (32 / size)), base)
    else Read(c, fuel, start + i * (size / 32), 0, base)
  }

  lemma InSlots(size: nat, i: nat)
    requires size >= 1
    ensures size < 32 ==> 32 / size >= 1 && i / (32 / size) >= 0 && size * (i % (32 / size)) >= 0
    ensures i * (size / 32) >= 0
  {
    if size < 32 {
      MultiplesBelow(32, size, 1);
    }
  }

  lemma WholeSlots(i: nat, size: nat)
    requires size % 32 == 0
    ensures i * size / 32 == i * (size / 32)
  {
    var q := size / 32;
    assert i * size == 32 * (i * q);
  }

  lemma ElementIsCell(c: Contract, fuel: nat, start: nat, base: string, i: nat)
    requires WellFormed(c) && base in c.types
    ensures var size := c.types[base].size;
      Element(c, fuel, start, base, i) == Read(c, fuel, CellSlot(start, size, i), CellShift(size, i), base)
  {
    if c.types[base].size >= 32 {
      WholeSlots(i, c.types[base].size);
    }
  }

  /** The items are the elements, or the error is that of the first element that cannot be read. */
  ghost predicate AreElements(c: Contract, fuel: nat, start: nat, base: string, from: nat, length: nat,
                              r: Result<seq<Value>, ReadError>)
    requires WellFormed(c) && base in c.types && from <= length
  {
    match r
    case Ok(items) =>
      |items| == length - from && forall i :: 0 <= i < |items| ==> Element(c, fuel, start, base, from + i) == Ok(items[i])
    case Err(error) =>
      exists i :: from <= i < length && Element(c, fuel, start, base, i) == Err(error)
        && forall j :: from <= j < i ==> Element(c, fuel, start, base, j).Ok?
  }

  lemma {:induction false} ItemsAreElements(c: Contract, fuel: nat, start: nat, base: string, from: nat, length: nat)
    requires WellFormed(c) && base in c.types && from <= length
    ensures AreElements(c, fuel, start, base, from, length, ReadItems(c, fuel, start, base, from, length))
    decreases length - from
  {
    if from < length {
      ElementIsCell(c, fuel, start, base, from);
      ItemsAreElements(c, fuel, start, base, from + 1, length);
      var first, rest := Element(c, fuel, start, base, from), ReadItems(c, fuel, start, base, from + 1, length);
      if first.Err? {
        assert Element(c, fuel, start, base, from) == Err(first.error);
      } else if rest.Ok? {
        ItemsAfterFirst(c, fuel, start, base, from, length, first.value, rest.value);
      } else {
        var i :| from + 1 <= i < length && Element(c, fuel, start, base, i) == Err(rest.error)
          && forall j :: from + 1 <= j < i ==> Element(c, fuel, start, base, j).Ok?;
        assert forall j :: from <= j < i ==> Element(c, fuel, start, base, j).Ok?;
      }
    }
  }

  lemma ItemsAfterFirst(c: Contract, fuel: nat, start: nat, base: string, from: nat, length: nat, first: Value,
                        rest: seq<Value>)
    requires WellFormed(c) && base in c.types && from < length && Element(c, fuel, start, base, from) == Ok(first)
    requires AreElements(c, fuel, start, base, from + 1, length, Ok(rest))
    ensures AreElements(c, fuel, start, base, from, length, Ok([first] + rest))
  {
    var items := [first] + rest;
    forall i | 0 <= i < |items|
      ensures Element(c, fuel, start, base, from + i) == Ok(items[i])
    {
      if i > 0 {
        assert Element(c, fuel, start, base, from + 1 + (i - 1)) == Ok(rest[i - 1]);
      }
    }
  }

  function MemberAt(c: Contract, fuel: nat, slot: nat, m: Member): Result<Value, ReadError>
    requires WellFormed(c)
  {
    Read(c, fuel, slot + m.slot, m.offset, m.typ)
  }

  /** The fields are those of the members, or the error is that of the first member that cannot be read. */
  ghost predicate AreMembers(c: Contract, fuel: nat, slot: nat, ms: seq<Member>, r: Result<map<string, Value>, ReadError>)
    requires WellFormed(c)
  {
    match r
    case Ok(fields) =>
      && fields.Keys == (set m | m in ms :: m.name)
      && forall m :: m in ms ==> MemberAt(c, fuel, slot, m) == Ok(fields[m.name])
    case Err(error) =>
      exists i :: 0 <= i < |ms| && MemberAt(c, fuel, slot, ms[i]) == Err(error)
        && forall j :: 0 <= j < i ==> MemberAt(c, fuel, slot, ms[j]).Ok?
  }

  lemma ErrorBefore(c: Contract, fuel: nat, slot: nat, ms: seq<Member>, last: Member, error: ReadError)
    requires WellFormed(c) && AreMembers(c, fuel, slot, ms, Err(error))
    ensures AreMembers(c, fuel, slot, ms + [last], Err(error))
  {
    var all := ms + [last];
    var i :| 0 <= i < |ms| && MemberAt(c, fuel, slot, ms[i]) == Err(error)
      && forall j :: 0 <= j < i ==> MemberAt(c, fuel, slot, ms[j]).Ok?;
    assert all[i] == ms[i] && forall j :: 0 <= j < i ==> all[j] == ms[j];
  }

  lemma ErrorLast(c: Contract, fuel: nat, slot: nat, ms: seq<Member>, last: Member, fields: map<string, Value>,
                  error: ReadError)
    requires WellFormed(c) && AreMembers(c, fuel, slot, ms, Ok(fields)) && MemberAt(c, fuel, slot, last) == Err(error)
    ensures AreMembers(c, fuel, slot, ms + [last], Err(error))
  {
    var all := ms + [last];
    forall j | 0 <= j < |ms|
      ensures MemberAt(c, fuel, slot, all[j]).Ok?
    {
      assert all[j] == ms[j] && ms[j] in ms;
    }
    assert all[|ms|] == last;
  }

  lemma OneMoreField(c: Contract, fuel: nat, slot: nat, ms: seq<Member>, last: Member, fields: map<string, Value>,
                     v: Value)
    requires WellFormed(c) && AreMembers(c, fuel, slot, ms, Ok(fields)) && MemberAt(c, fuel, slot, last) == Ok(v)
    requires forall m :: m in ms ==> m.name != last.name
    ensures AreMembers(c, fuel, slot, ms + [last], Ok(fields[last.name := v]))
  {
    var all, fields' := ms + [last], fields[last.name := v];
    assert forall m :: m in all <==> m in ms || m == last;
    assert fields'.Keys == (set m | m in all :: m.name) by {
      assert fields'.Keys == fields.Keys + {last.name};
    }
  }

  lemma LastField(c: Contract, fuel: nat, slot: nat, ms: seq<Member>, last: Member, all: seq<Member>,
                  before: Result<map<string, Value>, ReadError>, r: Result<map<string, Value>, ReadError>)
    requires WellFormed(c) && all == ms + [last] && (forall m :: m in ms ==> m.name != last.name)
    requires AreMembers(c, fuel, slot, ms, before)
    requires var v := MemberAt(c, fuel, slot, last);
      r == if before.Err? then Err(before.error) else if v.Err? then Err(v.error)
           else Ok(before.value[last.name := v.value])
    ensures AreMembers(c, fuel, slot, all, r)
  {
    var v := MemberAt(c, fuel, slot, last);
    if before.Err? {
      ErrorBefore(c, fuel, slot, ms, last, before.error);
    } else if v.Err? {
      ErrorLast(c, fuel, slot, ms, last, before.value, v.error);
    } else {
      OneMoreField(c, fuel, slot, ms, last, before.value, v.value);
    }
  }

  lemma LastIsNew(ms: seq<Member>)
    requires DistinctLabels(ms) && ms != []
    ensures DistinctLabels(ms[..|ms| - 1]) && forall m :: m in ms[..|ms| - 1] ==> m.name != ms[|ms| - 1].name
  {
  }

  lemma FieldsStep(c: Contract, fuel: nat, slot: nat, ms: seq<Member>)
    requires WellFormed(c) && ms != []
    ensures var before, v := ReadFields(c, fuel, slot, ms[..|ms| - 1]), MemberAt(c, fuel, slot, ms[|ms| - 1]);
      ReadFields(c, fuel, slot, ms) == if before.Err? then Err(before.error) else if v.Err? then Err(v.error)
                                       else Ok(before.value[ms[|ms| - 1].name := v.value])
  {
  }

  lemma {:induction false} FieldsAreMembers(c: Contract, fuel: nat, slot: nat, ms: seq<Member>,
                                            r: Result<map<string, Value>, ReadError>)
    requires WellFormed(c) && DistinctLabels(ms) && r == ReadFields(c, fuel, slot, ms)
    ensures AreMembers(c, fuel, slot, ms, r)
    decreases |ms|
  {
    if ms == [] {
    } else {
      var rest, last := ms[..|ms| - 1], ms[|ms| - 1];
      LastIsNew(ms);
      FieldsAreMembers(c, fuel, slot, rest, ReadFields(c, fuel, slot, rest));
      FieldsStep(c, fuel, slot, ms);
      LastField(c, fuel, slot, rest, last, ms, ReadFields(c, fuel, slot, rest), r);
    }
  }

  ghost predicate IsArray(c: Contract, fuel: nat, start: nat, base: string, length: nat, r: Result<Value, ReadError>)
    requires WellFormed(c)
  {
    if base !in c.types then r == Err(UnknownType)
    else if r.Err? then AreElements(c, fuel, start, base, 0, length, Err(r.error))
    else r.value.Items? && AreElements(c, fuel, start, base, 0, length, Ok(r.value.items))
  }

  ghost predicate IsStruct(c: Contract, fuel: nat, slot: nat, ms: seq<Member>, r: Result<Value, ReadError>)
    requires WellFormed(c)
  {
    if r.Err? then AreMembers(c, fuel, slot, ms, Err(r.error))
    else r.value.Fields? && AreMembers(c, fuel, slot, ms, Ok(r.value.fields))
  }

  /**
   What a read gives, by the kind of the type. A static array starts at its own slot. A dynamic one has its length
   there and starts at the slot's hash. Members of a struct stand at their slot and offset from it.
   */
  ghost predicate IsRead(c: Contract, fuel: nat, slot: nat, shift: nat, t: string, r: Result<Value, ReadError>)
    requires WellFormed(c) && t in c.types
  {
    var info := c.types[t];
    if info.StaticArray? then IsArray(c, fuel, slot, info.base, info.length, r)
    else if info.DynamicArray? then IsArray(c, fuel, c.hash(slot), info.base, c.word(slot), r)
    else if info.Struct? then IsStruct(c, fuel, slot, info.members, r)
    else if info.Mapping? then r == Ok(Undefined)
    else r == Ok(Leaf(c.primitive(slot, shift, t)))
  }

  lemma ReadMeaning(c: Contract, fuel: nat, slot: nat, shift: nat, t: string)
    requires WellFormed(c)
    ensures Read(c, 0, slot, shift, t) == Err(Unfinished)
    ensures t !in c.types ==> Read(c, fuel + 1, slot, shift, t) == Err(UnknownType)
    ensures t in c.types ==> IsRead(c, fuel, slot, shift, t, Read(c, fuel + 1, slot, shift, t))
  {
    if t in c.types {
      var info := c.types[t];
      if info.StaticArray? && info.base in c.types {
        ItemsAreElements(c, fuel, slot, info.base, 0, info.length);
      } else if info.DynamicArray? && info.base in c.types {
        ItemsAreElements(c, fuel, c.hash(slot), info.base, 0, c.word(slot));
      } else if info.Struct? {
        FieldsAreMembers(c, fuel, slot, info.members, ReadFields(c, fuel, slot, info.members));
      }
    }
  }

  /** Reading on at element i of an array that starts at slot `start`. */
  function ElementPath(c: Contract, fuel: nat, start: nat, base: string, index: Option<nat>, rest: seq<string>)
    : Result<Value, ReadError>
    requires WellFormed(c)
  {
    if index.None? then Err(InvalidIndex)
    else if base !in c.types then Err(UnknownType)
    else
      var i, size := index.value, c.types[base].size;
      InSlots(size, i);
      if size < 32 then ReadPart(c, fuel, start + i / (32 / size), size * (i % (32 / size)), base, rest)
      else ReadPart(c, fuel, start + i * (size / 32), 0, base, rest)
  }

  ghost predicate IsMember(c: Contract, fuel: nat, slot: nat, ms: seq<Member>, rest: seq<string>, name: string,
                           r: Result<Value, ReadError>)
    requires WellFormed(c)
  {
    && (forall m :: m in ms && m.name == name ==> r == ReadPart(c, fuel, slot + m.slot, m.offset, m.typ, rest))
    && ((forall m :: m in ms ==> m.name != name) ==> r == Err(InvalidField))
  }

  /** Following one accessor, by the kind of the type: an index, a field name, a key; a primitive takes none. */
  ghost predicate IsPath(c: Contract, fuel: nat, slot: nat, shift: nat, t: string, rest: seq<string>, last: string,
                         r: Result<Value, ReadError>)
    requires WellFormed(c) && t in c.types
  {
    var info := c.types[t];
    if info.StaticArray? then r == ElementPath(c, fuel, slot, info.base, c.number(last), rest)
    else if info.DynamicArray? then r == ElementPath(c, fuel, c.hash(slot), info.base, c.number(last), rest)
    else if info.Struct? then IsMember(c, fuel, slot, info.members, rest, last, r)
    else if info.Mapping? then r == ReadPart(c, fuel, c.hashKey(last, info.key, slot), 0, info.value, rest)
    else r == Ok(Leaf(c.primitive(slot, shift, t)))
  }

  lemma ElementPathMeaning(c: Contract, fuel: nat, slot: nat, shift: nat, t: string, params: seq<string>, start: nat)
    requires WellFormed(c) && params != [] && t in c.types && (c.types[t].StaticArray? || c.types[t].DynamicArray?)
    requires start == if c.types[t].StaticArray? then slot else c.hash(slot)
    ensures ReadPart(c, fuel + 1, slot, shift, t, params)
         == ElementPath(c, fuel, start, c.types[t].base, c.number(params[|params| - 1]), params[..|params| - 1])
  {
    var base, i := c.types[t].base, c.number(params[|params| - 1]);
    if base in c.types && c.types[base].size >= 32 && i.Some? {
      WholeSlots(i.value, c.types[base].size);
    }
  }

  lemma MemberPathMeaning(c: Contract, fuel: nat, slot: nat, shift: nat, t: string, params: seq<string>,
                          r: Result<Value, ReadError>)
    requires WellFormed(c) && params != [] && t in c.types && c.types[t].Struct?
    requires r == ReadPart(c, fuel + 1, slot, shift, t, params)
    ensures IsMember(c, fuel, slot, c.types[t].members, params[..|params| - 1], params[|params| - 1], r)
  {
    OneMember(c.types[t].members, params[|params| - 1]);
  }

  lemma PathMeaning(c: Contract, fuel: nat, slot: nat, shift: nat, t: string, params: seq<string>,
                    r: Result<Value, ReadError>)
    requires WellFormed(c) && r == ReadPart(c, fuel + 1, slot, shift, t, params)
    ensures params == [] ==> r == Read(c, fuel + 1, slot, shift, t)
    ensures params != [] && t !in c.types ==> r == Err(UnknownType)
    ensures params != [] && t in c.types ==>
      IsPath(c, fuel, slot, shift, t, params[..|params| - 1], params[|params| - 1], r)
  {
    if params != [] && t in c.types {
      var info := c.types[t];
      if info.StaticArray? {
        ElementPathMeaning(c, fuel, slot, shift, t, params, slot);
      } else if info.DynamicArray? {
        ElementPathMeaning(c, fuel, slot, shift, t, params, c.hash(slot));
      } else if info.Struct? {
        MemberPathMeaning(c, fuel, slot, shift, t, params, r);
      }
    }
  }

  lemma OneMember(ms: seq<Member>, name: string)
    requires DistinctLabels(ms)
    ensures forall m :: m in ms && m.name == name ==> FindMember(ms, name) == Some(m)
  {
  }

  /** The element that an index selects from a read array is what stands in its cell. */
  lemma {:induction false} ArrayComponent(c: Contract, fuel: nat, slot: nat, shift: nat, t: string, params: seq<string>)
    requires WellFormed(c) && params != [] && Read(c, fuel, slot, shift, t).Ok?
    requires t in c.types && (c.types[t].StaticArray? || c.types[t].DynamicArray?)
    requires Project(c, Read(c, fuel, slot, shift, t).value, params).Ok?
    ensures fuel > 0 &&
      var info, last, rest := c.types[t], params[|params| - 1], params[..|params| - 1];
      c.number(last).Some? && info.base in c.types &&
      var i, size, start := c.number(last).value, c.types[info.base].size, ArrayStart(c, info, slot);
      var item := Read(c, fuel - 1, CellSlot(start, size, i), CellShift(size, i), info.base);
      item.Ok? && Project(c, Read(c, fuel, slot, shift, t).value, params) == Project(c, item.value, rest)
  {
    var info := c.types[t];
    var i := c.number(params[|params| - 1]).value;
    ReadItemsAt(c, fuel - 1, ArrayStart(c, info, slot), info.base, 0, ArrayLength(c, info, slot), i);
  }

  /** The field that a name selects from a read struct is what stands at its member's place. */
  lemma {:induction false} StructComponent(c: Contract, fuel: nat, slot: nat, shift: nat, t: string, params: seq<string>)
    requires WellFormed(c) && params != [] && Read(c, fuel, slot, shift, t).Ok?
    requires t in c.types && c.types[t].Struct?
    requires Project(c, Read(c, fuel, slot, shift, t).value, params).Ok?
    ensures fuel > 0 &&
      var m, rest := FindMember(c.types[t].members, params[|params| - 1]), params[..|params| - 1];
      m.Some? &&
      var field := Read(c, fuel - 1, slot + m.value.slot, m.value.offset, m.value.typ);
      field.Ok? && Project(c, Read(c, fuel, slot, shift, t).value, params) == Project(c, field.value, rest)
  {
    var m := FindMember(c.types[t].members, params[|params| - 1]);
    ReadFieldsAt(c, fuel - 1, slot, c.types[t].members, if m.Some? then m.value else Member("", 0, 0, ""));
  }

  /** Reading along a path gives what reading the whole variable places there. */
  lemma {:induction false} PathReadsComponent(c: Contract, fuel: nat, slot: nat, shift: nat, t: string,
                                              params: seq<string>)
    requires WellFormed(c) && Read(c, fuel, slot, shift, t).Ok?
    requires Project(c, Read(c, fuel, slot, shift, t).value, params).Ok?
    ensures ReadPart(c, fuel, slot, shift, t, params) == Project(c, Read(c, fuel, slot, shift, t).value, params)
    decreases |params|
  {
    if params == [] {
    } else {
      var info, last, rest := c.types[t], params[|params| - 1], params[..|params| - 1];
      if info.StaticArray? || info.DynamicArray? {
        ArrayComponent(c, fuel, slot, shift, t, params);
        var i, size, start := c.number(last).value, c.types[info.base].size, ArrayStart(c, info, slot);
        PathReadsComponent(c, fuel - 1, CellSlot(start, size, i), CellShift(size, i), info.base, rest);
      } else if info.Struct? {
        StructComponent(c, fuel, slot, shift, t, params);
        var m := FindMember(info.members, last).value;
        PathReadsComponent(c, fuel - 1, slot + m.slot, m.offset, m.typ, rest);
      }
    }
  }

  // ----- the depth bound does not change results

  lemma {:induction false} FuelMonotone(c: Contract, fuel: nat, slot: nat, shift: nat, t: string)
    requires WellFormed(c) && Read(c, fuel, slot, shift, t).Ok?
    ensures Read(c, fuel + 1, slot, shift, t) == Read(c, fuel, slot, shift, t)
    decreases fuel, 0, 0
  {
    var info := c.types[t];
    if info.StaticArray? || info.DynamicArray? {
      FuelMonotoneItems(c, fuel - 1, ArrayStart(c, info, slot), info.base, 0, ArrayLength(c, info, slot));
    } else if info.Struct? {
      FuelMonotoneFields(c, fuel - 1, slot, info.members);
    }
  }

  lemma {:induction false} FuelMonotoneItems(c: Contract, fuel: nat, start: nat, base: string, i: nat, length: nat)
    requires WellFormed(c) && base in c.types && ReadItems(c, fuel, start, base, i, length).Ok?
    ensures ReadItems(c, fuel + 1, start, base, i, length) == ReadItems(c, fuel, start, base, i, length)
    decreases fuel, 1, length - i
  {
    if i < length {
      var size := c.types[base].size;
      FuelMonotone(c, fuel, CellSlot(start, size, i), CellShift(size, i), base);
      FuelMonotoneItems(c, fuel, start, base, i + 1, length);
    }
  }

  lemma {:induction false} FuelMonotoneFields(c: Contract, fuel: nat, slot: nat, ms: seq<Member>)
    requires WellFormed(c) && ReadFields(c, fuel, slot, ms).Ok?
    ensures ReadFields(c, fuel + 1, slot, ms) == ReadFields(c, fuel, slot, ms)
    decreases fuel, 1, |ms|
  {
    if ms == [] {
    } else {
      var last := ms[|ms| - 1];
      FuelMonotoneFields(c, fuel, slot, ms[..|ms| - 1]);
      FuelMonotone(c, fuel, slot + last.slot, last.offset, last.typ);
    }
  }

  // ----- the loops of the source

  method ReadVariable(c: Contract, fuel: nat, slot: nat, shift: nat, t: string)
    returns (r: Result<Value, ReadError>)
    requires WellFormed(c)
    ensures r == Read(c, fuel, slot, shift, t)
    decreases fuel, 0
  {
    if fuel == 0 {
      return Err(Unfinished);
    }
    if t !in c.types {
      return Err(UnknownType);
    }
    var info := c.types[t];
    if info.StaticArray? || info.DynamicArray? {
      if info.base !in c.types {
        return Err(UnknownType);
      }
      var items :- ReadArray(c, fuel - 1, slot, info);
      return Ok(Items(items));
    }
    if info.Struct? {
      var fields :- ReadStruct(c, fuel - 1, slot, info.members);
      return Ok(Fields(fields));
    }
    if info.Mapping? {
      return Ok(Undefined);
    }
    return Ok(Leaf(c.primitive(slot, shift, t)));
  }

  method ReadArray(c: Contract, fuel: nat, slot: nat, info: TypeInfo)
    returns (r: Result<seq<Value>, ReadError>)
    requires WellFormed(c) && (info.StaticArray? || info.DynamicArray?) && info.base in c.types
    ensures r == ReadItems(c, fuel, ArrayStart(c, info, slot), info.base, 0, ArrayLength(c, info, slot))
    ensures if info.StaticArray? then AreElements(c, fuel, slot, info.base, 0, info.length, r)
            else AreElements(c, fuel, c.hash(slot), info.base, 0, c.word(slot), r)
    decreases fuel, 2
  {
    var length := ArrayLength(c, info, slot);
    var start := ArrayStart(c, info, slot);
    ItemsAreElements(c, fuel, start, info.base, 0, length);
    if c.types[info.base].size < 32 {
      r := ReadPackedArray(c, fuel, start, info.base, length);
    } else {
      r := ReadWideArray(c, fuel, start, info.base, length);
    }
  }

  /** Walks slot and shift element by element; they stay equal to the quotient and remainder formula. */
  method ReadPackedArray(c: Contract, fuel: nat, start: nat, base: string, length: nat)
    returns (r: Result<seq<Value>, ReadError>)
    requires WellFormed(c) && base in c.types && c.types[base].size < 32
    ensures r == ReadItems(c, fuel, start, base, 0, length)
    decreases fuel, 1
  {
    var size: int := c.types[base].size;
    var data: seq<Value> := [];
    var at := start;
    var shift := -size;
    ContinuesAtStart(c, fuel, start, base, length);
    for i := 0 to length
      invariant i == 0 ==> at == start && shift == -size
      invariant i > 0 ==> at == CellSlot(start, size, i - 1) && shift == CellShift(size, i - 1)
      invariant Continues(c, fuel, start, base, i, length, data)
    {
      shift := shift + size;
      if shift + size > 32 {
        shift := 0;
        at := at + 1;
      }
      NextCell(start, size, i);
      var v := ReadVariable(c, fuel, at, shift, base);
      if v.Err? {
        return Err(v.error);
      }
      ContinuesStep(c, fuel, start, base, i, length, data, v.value);
      data := data + [v.value];
    }
    assert data + [] == data;
    return Ok(data);
  }

  method ReadWideArray(c: Contract, fuel: nat, start: nat, base: string, length: nat)
    returns (r: Result<seq<Value>, ReadError>)
    requires WellFormed(c) && base in c.types && c.types[base].size >= 32
    ensures r == ReadItems(c, fuel, start, base, 0, length)
    decreases fuel, 1
  {
    var size := c.types[base].size;
    var data: seq<Value> := [];
    var at := start;
    ContinuesAtStart(c, fuel, start, base, length);
    for i := 0 to length
      invariant at == CellSlot(start, size, i)
      invariant Continues(c, fuel, start, base, i, length, data)
    {
      var v := ReadVariable(c, fuel, at, 0, base);
      if v.Err? {
        return Err(v.error);
      }
      ContinuesStep(c, fuel, start, base, i, length, data, v.value);
      data := data + [v.value];
      at := at + size / 32;
      WideCell(start, size, i);
    }
    assert data + [] == data;
    return Ok(data);
  }

  /** Elements 0 to i are `data`, and the rest of the read decides the result. */
  ghost predicate Continues(c: Contract, fuel: nat, start: nat, base: string, i: nat, length: nat, data: seq<Value>)
    requires WellFormed(c) && base in c.types
  {
    var whole, rest := ReadItems(c, fuel, start, base, 0, length), ReadItems(c, fuel, start, base, i, length);
    if rest.Ok? then whole == Ok(data + rest.value) else whole == Err(rest.error)
  }

  lemma ContinuesAtStart(c: Contract, fuel: nat, start: nat, base: string, length: nat)
    requires WellFormed(c) && base in c.types
    ensures Continues(c, fuel, start, base, 0, length, [])
  {
    var whole := ReadItems(c, fuel, start, base, 0, length);
    assert whole.Ok? ==> [] + whole.value == whole.value;
  }

  lemma ContinuesStep(c: Contract, fuel: nat, start: nat, base: string, i: nat, length: nat, data: seq<Value>, v: Value)
    requires WellFormed(c) && base in c.types && i < length && Continues(c, fuel, start, base, i, length, data)
    requires var size := c.types[base].size;
      Read(c, fuel, CellSlot(start, size, i), CellShift(size, i), base) == Ok(v)
    ensures Continues(c, fuel, start, base, i + 1, length, data + [v])
  {
    var rest := ReadItems(c, fuel, start, base, i + 1, length);
    assert rest.Ok? ==> data + ([v] + rest.value) == data + [v] + rest.value;
  }

  lemma WideCell(start: nat, size: nat, i: nat)
    requires size >= 32 && size % 32 == 0
    ensures CellSlot(start, size, i + 1) == CellSlot(start, size, i) + size / 32
  {
    var q := size / 32;
    assert size == 32 * q;
    assert i * size == 32 * (i * q) && (i + 1) * size == 32 * (i * q + q);
  }

  /** Stepping by one element moves on within the slot, or to the start of the next slot. */
  lemma NextCell(start: nat, size: nat, i: nat)
    requires 1 <= size < 32
    ensures i == 0 ==> CellSlot(start, size, 0) == start && CellShift(size, 0) == 0
    ensures i > 0 ==>
      var shift := CellShift(size, i - 1) + size;
      && CellShift(size, i) == (if shift + size > 32 then 0 else shift)
      && CellSlot(start, size, i) == CellSlot(start, size, i - 1) + (if shift + size > 32 then 1 else 0)
  {
    if i > 0 {
      NextPackedCell(size, PerSlot(size), i);
    }
  }

  lemma NextPackedCell(size: nat, n: nat, i: nat)
    requires n > 0 && n * size <= 32 < (n + 1) * size && i > 0
    ensures var shift := size * ((i - 1) % n) + size;
      && size * (i % n) == (if shift + size > 32 then 0 else shift)
      && i / n == (i - 1) / n + (if shift + size > 32 then 1 else 0)
  {
    NextDivMod(i, n);
    SlotIsFull(size, n, (i - 1) % n);
  }

  /** After element r of n in a slot there is no room left exactly when it was the last. */
  lemma SlotIsFull(size: nat, n: nat, r: nat)
    requires n * size <= 32 < (n + 1) * size && r < n
    ensures size * r + size + size > 32 <==> r + 1 == n
    ensures size * (r + 1) == size * r + size
  {
    assert (r + 2) * size == size * r + size + size;
    if r + 1 < n {
      MulMonotone(r + 2, n, size);
    }
  }

  lemma NextDivMod(i: nat, n: nat)
    requires n > 0 && i > 0
    ensures var q, r := (i - 1) / n, (i - 1) % n;
      && i / n == (if r + 1 < n then q else q + 1)
      && i % n == (if r + 1 < n then r + 1 else 0)
  {
    var q, r := (i - 1) / n, (i - 1) % n;
    MultiplesBelow(i - 1, n, q);
    assert i == q * n + r + 1;
    assert (q + 1) * n == q * n + n && (q + 2) * n == q * n + n + n;
    var p := if r + 1 < n then q else q + 1;
    QuotientUnique(i, n, p);
    MultiplesBelow(i, n, p);
  }

  lemma ReadStructMeaning(c: Contract, fuel: nat, slot: nat, ms: seq<Member>, r: Result<map<string, Value>, ReadError>)
    requires WellFormed(c) && r == ReadFields(c, fuel, slot, ms)
    ensures DistinctLabels(ms) ==> AreMembers(c, fuel, slot, ms, r)
  {
    if DistinctLabels(ms) {
      FieldsAreMembers(c, fuel, slot, ms, r);
    }
  }

  method ReadStruct(c: Contract, fuel: nat, slot: nat, members: seq<Member>)
    returns (r: Result<map<string, Value>, ReadError>)
    requires WellFormed(c)
    ensures r == ReadFields(c, fuel, slot, members)
    ensures DistinctLabels(members) ==> AreMembers(c, fuel, slot, members, r)
    decreases fuel, 1
  {
    var result: map<string, Value> := map[];
    for i := 0 to |members|
      invariant ReadFields(c, fuel, slot, members[..i]) == Ok(result)
    {
      var m := members[i];
      assert members[..i + 1][..i] == members[..i];
      var v := ReadVariable(c, fuel, slot + m.slot, m.offset, m.typ);
      if v.Err? {
        FailedPrefix(c, fuel, slot, members, i + 1);
        ReadStructMeaning(c, fuel, slot, members, Err(v.error));
        return Err(v.error);
      }
      result := result[m.name := v.value];
    }
    assert members[..|members|] == members;
    ReadStructMeaning(c, fuel, slot, members, Ok(result));
    return Ok(result);
  }

  lemma {:induction false} FailedPrefix(c: Contract, fuel: nat, slot: nat, ms: seq<Member>, i: nat)
    requires WellFormed(c) && i <= |ms| && ReadFields(c, fuel, slot, ms[..i]).Err?
    ensures ReadFields(c, fuel, slot, ms) == ReadFields(c, fuel, slot, ms[..i])
    decreases |ms|
  {
    if i == |ms| {
      assert ms[..i] == ms;
    } else {
      assert ms[..|ms| - 1][..i] == ms[..i];
      FailedPrefix(c, fuel, slot, ms[..|ms| - 1], i);
    }
  }

  // ----- from a printed name to a value

  ghost predicate LastOf(storage: seq<Variable>, v: Variable) {
    exists i :: 0 <= i < |storage| && storage[i] == v && forall j :: i < j < |storage| ==> storage[j].name != v.name
  }

  /** The last variable of that name. */
  function FindVariable(storage: seq<Variable>, name: string): (r: Option<Variable>)
    ensures r.None? <==> forall i :: 0 <= i < |storage| ==> storage[i].name != name
    ensures r.Some? ==> r.value.name == name && LastOf(storage, r.value)
  {
    if storage == [] then None
    else if storage[|storage| - 1].name == name then Some(storage[|storage| - 1])
    else FindVariable(storage[..|storage| - 1], name)
  }

  function GetValue(c: Contract, storage: seq<Variable>, fuel: nat, name: string): Result<Value, ReadError>
    requires WellFormed(c)
  {
    var params := AccessorParser.Parsed(name);
    var variable := FindVariable(storage, AccessorParser.VariableName(name));
    if params.Err? || variable.None? then Err(InvalidName)
    else ReadPart(c, fuel, variable.value.slot, variable.value.offset, variable.value.typ, params.value)
  }

  /** A name printed from a variable and accessors reads the component that the accessors select. */
  lemma PrintedNameReadsComponent(c: Contract, storage: seq<Variable>, fuel: nat, base: string,
                                  accessors: seq<AccessorParser.Accessor>)
    requires WellFormed(c) && '.' !in base && '[' !in base && AccessorParser.PlainTexts(accessors)
    requires FindVariable(storage, base).Some?
    requires var v := FindVariable(storage, base).value;
      && Read(c, fuel, v.slot, v.offset, v.typ).Ok?
      && Project(c, Read(c, fuel, v.slot, v.offset, v.typ).value,
                 Sequences.Reverse(AccessorParser.Texts(accessors))).Ok?
    ensures var v := FindVariable(storage, base).value;
      GetValue(c, storage, fuel, base + AccessorParser.PrintAll(accessors))
      == Project(c, Read(c, fuel, v.slot, v.offset, v.typ).value,
                 Sequences.Reverse(AccessorParser.Texts(accessors)))
  {
    var v := FindVariable(storage, base).value;
    AccessorParser.ParsePrint(base, accessors);
    PathReadsComponent(c, fuel, v.slot, v.offset, v.typ, Sequences.Reverse(AccessorParser.Texts(accessors)));
  }

  // ----- how much recursion is enough

  /** The types that a type is made of. */
  function PartsOf(info: TypeInfo): set<string> {
    if info.StaticArray? || info.DynamicArray? then {info.base}
    else if info.Struct? then set m | m in info.members :: m.typ
    else if info.Mapping? then {info.value}
    else {}
  }

  /** No type contains itself: parts have a smaller rank. */
  ghost predicate Acyclic(c: Contract, rank: string -> nat) {
    forall t, p :: t in c.types && p in c.types && p in PartsOf(c.types[t]) ==> rank(p) < rank(t)
  }

  ghost function Below(c: Contract, rank: string -> nat, t: string): set<string> {
    set s | s in c.types && rank(s) < rank(t)
  }

  /** Enough for reading a value of type t; an unknown type is reported on the first call. */
  ghost predicate Enough(c: Contract, rank: string -> nat, fuel: nat, t: string) {
    fuel >= 1 && (t in c.types ==> fuel >= |Below(c, rank, t)| + 2)
  }

  lemma PartsNeedLess(c: Contract, rank: string -> nat, fuel: nat, t: string, p: string)
    requires Acyclic(c, rank) && t in c.types && p in PartsOf(c.types[t]) && Enough(c, rank, fuel, t)
    ensures Enough(c, rank, fuel - 1, p)
  {
    if p in c.types {
      assert Below(c, rank, p) + {p} <= Below(c, rank, t);
      SubsetSmaller(Below(c, rank, p) + {p}, Below(c, rank, t));
    }
  }

  lemma {:induction false} SubsetSmaller(a: set<string>, b: set<string>)
    requires a <= b
    ensures |a| <= |b|
    decreases |a|
  {
    if a == {} {
    } else {
      var x :| x in a;
      SubsetSmaller(a - {x}, b - {x});
    }
  }

  lemma {:induction false} ReadFinishes(c: Contract, rank: string -> nat, fuel: nat, slot: nat, shift: nat, t: string)
    requires WellFormed(c) && Acyclic(c, rank) && Enough(c, rank, fuel, t)
    ensures Read(c, fuel, slot, shift, t) != Err(Unfinished)
    decreases fuel, 0, 0
  {
    if t in c.types {
      var info := c.types[t];
      if info.StaticArray? || info.DynamicArray? {
        if info.base in c.types {
          PartsNeedLess(c, rank, fuel, t, info.base);
          ItemsFinish(c, rank, fuel - 1, ArrayStart(c, info, slot), info.base, 0, ArrayLength(c, info, slot));
        }
      } else if info.Struct? {
        forall i | 0 <= i < |info.members|
          ensures Enough(c, rank, fuel - 1, info.members[i].typ)
        {
          assert info.members[i] in info.members;
          PartsNeedLess(c, rank, fuel, t, info.members[i].typ);
        }
        FieldsFinish(c, rank, fuel - 1, slot, info.members);
      }
    }
  }

  lemma {:induction false} ItemsFinish(c: Contract, rank: string -> nat, fuel: nat, start: nat, base: string, i: nat,
                                       length: nat)
    requires WellFormed(c) && Acyclic(c, rank) && base in c.types && Enough(c, rank, fuel, base)
    ensures ReadItems(c, fuel, start, base, i, length) != Err(Unfinished)
    decreases fuel, 1, length - i
  {
    if i < length {
      var size := c.types[base].size;
      ReadFinishes(c, rank, fuel, CellSlot(start, size, i), CellShift(size, i), base);
      ItemsFinish(c, rank, fuel, start, base, i + 1, length);
    }
  }

  lemma {:induction false} FieldsFinish(c: Contract, rank: string -> nat, fuel: nat, slot: nat, ms: seq<Member>)
    requires WellFormed(c) && Acyclic(c, rank) && forall i :: 0 <= i < |ms| ==> Enough(c, rank, fuel, ms[i].typ)
    ensures ReadFields(c, fuel, slot, ms) != Err(Unfinished)
    decreases fuel, 1, |ms|
  {
    if ms == [] {
    } else {
      var last := ms[|ms| - 1];
      FieldsFinish(c, rank, fuel, slot, ms[..|ms| - 1]);
      ReadFinishes(c, rank, fuel, slot + last.slot, last.offset, last.typ);
    }
  }

  /** Following one accessor leads to a part with fuel to spare, ends the reading, or is an error. */
  lemma {:induction false} PartFinishes(c: Contract, rank: string -> nat, fuel: nat, slot: nat, shift: nat, t: string,
                                        params: seq<string>)
    requires WellFormed(c) && Acyclic(c, rank) && Enough(c, rank, fuel, t)
    ensures ReadPart(c, fuel, slot, shift, t, params) != Err(Unfinished)
    decreases |params|, 1
  {
    if params == [] {
      ReadFinishes(c, rank, fuel, slot, shift, t);
    } else if t in c.types {
      var info, last, rest := c.types[t], params[|params| - 1], params[..|params| - 1];
      if info.StaticArray? || info.DynamicArray? {
        ElementFinishes(c, rank, fuel, slot, shift, t, params);
      } else if info.Struct? {
        FieldFinishes(c, rank, fuel, slot, shift, t, params);
      } else if info.Mapping? {
        PartsNeedLess(c, rank, fuel, t, info.value);
        PartFinishes(c, rank, fuel - 1, c.hashKey(last, info.key, slot), 0, info.value, rest);
      }
    }
  }

  lemma {:induction false} ElementFinishes(c: Contract, rank: string -> nat, fuel: nat, slot: nat, shift: nat, t: string,
                                           params: seq<string>)
    requires WellFormed(c) && Acyclic(c, rank) && Enough(c, rank, fuel, t) && params != []
    requires t in c.types && (c.types[t].StaticArray? || c.types[t].DynamicArray?)
    ensures ReadPart(c, fuel, slot, shift, t, params) != Err(Unfinished)
    decreases |params|, 0
  {
    var info, last, rest := c.types[t], params[|params| - 1], params[..|params| - 1];
    if c.number(last).Some? && info.base in c.types {
      var i, size, start := c.number(last).value, c.types[info.base].size, ArrayStart(c, info, slot);
      PartsNeedLess(c, rank, fuel, t, info.base);
      PartFinishes(c, rank, fuel - 1, CellSlot(start, size, i), CellShift(size, i), info.base, rest);
    }
  }

  lemma {:induction false} FieldFinishes(c: Contract, rank: string -> nat, fuel: nat, slot: nat, shift: nat, t: string,
                                         params: seq<string>)
    requires WellFormed(c) && Acyclic(c, rank) && Enough(c, rank, fuel, t) && params != []
    requires t in c.types && c.types[t].Struct?
    ensures ReadPart(c, fuel, slot, shift, t, params) != Err(Unfinished)
    decreases |params|, 0
  {
    var rest, member := params[..|params| - 1], FindMember(c.types[t].members, params[|params| - 1]);
    if member.Some? {
      PartsNeedLess(c, rank, fuel, t, member.value.typ);
      PartFinishes(c, rank, fuel - 1, slot + member.value.slot, member.value.offset, member.value.typ, rest);
    }
  }

  /** For an acyclic table of n types, recursion to depth n + 1 always finishes, whole or along any path. */
  lemma DepthSuffices(c: Contract, rank: string -> nat, slot: nat, shift: nat, t: string, params: seq<string>)
    requires WellFormed(c) && Acyclic(c, rank)
    ensures Read(c, |c.types| + 1, slot, shift, t) != Err(Unfinished)
    ensures ReadPart(c, |c.types| + 1, slot, shift, t, params) != Err(Unfinished)
  {
    if t in c.types {
      assert Below(c, rank, t) + {t} <= c.types.Keys;
      SubsetSmaller(Below(c, rank, t) + {t}, c.types.Keys);
    }
    ReadFinishes(c, rank, |c.types| + 1, slot, shift, t);
    PartFinishes(c, rank, |c.types| + 1, slot, shift, t, params);
  }
}
