// Large temporary memory references travel as registered ones, and come back as they were.
// Models the parameter conversions of libminkteec/src/mink_teec.c; the types are those of
// section 4.4 of the GlobalPlatform TEE Client API Specification v1.0.

module Teec {

  /** A 32-bit word of parameter types, four bits each, as a number. */
  type Word = x: int | 0 <= x < 0x1_0000_0000

  type Nibble = x: int | 0 <= x < 16

  const MAX_NUM_PARAMS: nat := 4
  const SHM_MAX_HEAP_SZ: nat := 0x1000

  const TEMP_INPUT: Nibble := 0x5
  const TEMP_OUTPUT: Nibble := 0x6
  const TEMP_INOUT: Nibble := 0x7
  const WHOLE: Nibble := 0xC
  const PARTIAL_INPUT: Nibble := 0xD
  const PARTIAL_OUTPUT: Nibble := 0xE
  const PARTIAL_INOUT: Nibble := 0xF

  // What QTEE calls the three kinds of memory reference.
  const MEMREF_INPUT: Nibble := 5
  const MEMREF_OUTPUT: Nibble := 6
  const MEMREF_INOUT: Nibble := 7

  /** TEEC_PARAM_TYPE_GET: the four bits from bit 4 * i on. */
  function Get(t: Word, i: nat): Nibble
    requires i < MAX_NUM_PARAMS
  {
    match i
    case 0 => t % 16
    case 1 => t / 0x10 % 16
    case 2 => t / 0x100 % 16
    case _ => t / 0x1000 % 16
  }

  /** TEEC_PARAM_TYPE_SET: these bits are masked out, then replaced. */
  function Set(p: Nibble, i: nat, t: Word): Word
    requires i < MAX_NUM_PARAMS
  {
    SetFits(p, i, t);
    t + (p - Get(t, i)) * Shift(i)
  }

  function Shift(i: nat): nat {
    match i
    case 0 => 1
    case 1 => 0x10
    case 2 => 0x100
    case _ => 0x1000
  }

  /** The bits no parameter uses. */
  function Upper(t: Word): int { t / 0x1_0000 }

  lemma Digits(t: int, a: int, b: int, c: int, d: int, u: int)
    requires 0 <= a < 16 && 0 <= b < 16 && 0 <= c < 16 && 0 <= d < 16 && 0 <= u < 0x1_0000
    requires t == a + 0x10 * b + 0x100 * c + 0x1000 * d + 0x1_0000 * u
    ensures 0 <= t < 0x1_0000_0000
    ensures t % 16 == a && t / 0x10 % 16 == b && t / 0x100 % 16 == c && t / 0x1000 % 16 == d && t / 0x1_0000 == u
  {
    Digit(t, a, b + 0x10 * c + 0x100 * d + 0x1000 * u);
    Digit(t / 0x10, b, c + 0x10 * d + 0x100 * u);
    Digit(t / 0x100, c, d + 0x10 * u);
    Digit(t / 0x1000, d, u);
  }

  lemma Digit(t: int, a: int, rest: int)
    requires 0 <= a < 16 && 0 <= rest && t == a + 16 * rest
    ensures t % 16 == a && t / 16 == rest
    ensures t / 0x100 == rest / 0x10 && t / 0x1000 == rest / 0x100 && t / 0x1_0000 == rest / 0x1000
  {
  }

  lemma Sum(t: Word)
    ensures t == Get(t, 0) + 0x10 * Get(t, 1) + 0x100 * Get(t, 2) + 0x1000 * Get(t, 3) + 0x1_0000 * Upper(t)
    ensures 0 <= Upper(t) < 0x1_0000
  {
    assert t / 0x100 == t / 0x10 / 16 && t / 0x1000 == t / 0x100 / 16 && t / 0x1_0000 == t / 0x1000 / 16;
  }

  lemma SetFits(p: Nibble, i: nat, t: Word)
    requires i < MAX_NUM_PARAMS
    ensures 0 <= t + (p - Get(t, i)) * Shift(i) < 0x1_0000_0000
  {
    Sum(t);
  }

  lemma GetOfSet(p: Nibble, i: nat, t: Word, j: nat)
    requires i < MAX_NUM_PARAMS && j < MAX_NUM_PARAMS
    ensures Get(Set(p, i, t), j) == if i == j then p else Get(t, j)
    ensures Upper(Set(p, i, t)) == Upper(t)
  {
    Sum(t);
    Digits(Set(p, i, t), if i == 0 then p else Get(t, 0), if i == 1 then p else Get(t, 1),
           if i == 2 then p else Get(t, 2), if i == 3 then p else Get(t, 3), Upper(t));
  }

  lemma SetChanges(p: Nibble, i: nat, t: Word)
    requires i < MAX_NUM_PARAMS
    ensures forall j :: 0 <= j < MAX_NUM_PARAMS ==> Get(Set(p, i, t), j) == if i == j then p else Get(t, j)
    ensures Upper(Set(p, i, t)) == Upper(t)
  {
    forall j | 0 <= j < MAX_NUM_PARAMS ensures Get(Set(p, i, t), j) == if i == j then p else Get(t, j) {
      GetOfSet(p, i, t, j);
    }
    GetOfSet(p, i, t, i);
  }

  /** A word is its four types and the rest. */
  lemma SameWord(t: Word, u: Word)
    requires forall i :: 0 <= i < MAX_NUM_PARAMS ==> Get(t, i) == Get(u, i)
    requires Upper(t) == Upper(u)
    ensures t == u
  {
    Sum(t);
    Sum(u);
  }

  // ---------------------------------------------------------------- operations

  /** TEEC_SharedMemory: the buffer's address and size, how it may be used, and whether it stands in
      for a temporary reference. */
  class SharedMemory {
    var buffer: nat
    var size: nat
    var input: bool
    var output: bool
    var converted: bool

    constructor (buffer: nat, size: nat, input: bool, output: bool, converted: bool)
      ensures this.buffer == buffer && this.size == size && this.input == input && this.output == output
      ensures this.converted == converted
    {
      this.buffer, this.size, this.input, this.output := buffer, size, input, output;
      this.converted := converted;
    }
  }

  datatype Parameter =
    | Value(a: nat, b: nat)
    | Temp(buffer: nat, size: nat)
    | Registered(parent: SharedMemory, refSize: nat, offset: nat)

  class Operation {
    var paramTypes: Word
    var params: seq<Parameter>

    constructor (paramTypes: Word, params: seq<Parameter>)
      ensures this.paramTypes == paramTypes && this.params == params
    {
      this.paramTypes, this.params := paramTypes, params;
    }

    /** The parameters are what their types say. */
    ghost predicate Valid()
      reads this
    {
      |params| == MAX_NUM_PARAMS &&
      forall i :: 0 <= i < MAX_NUM_PARAMS ==> Typed(Get(paramTypes, i), params[i])
    }
  }

  predicate IsTemp(t: Nibble) { t == TEMP_INPUT || t == TEMP_OUTPUT || t == TEMP_INOUT }

  predicate IsPartial(t: Nibble) { t == PARTIAL_INPUT || t == PARTIAL_OUTPUT || t == PARTIAL_INOUT }

  predicate Typed(t: Nibble, p: Parameter) {
    (IsTemp(t) ==> p.Temp?) && (IsPartial(t) || t == WHOLE ==> p.Registered?)
  }

  predicate Big(t: Nibble, p: Parameter) {
    IsTemp(t) && p.Temp? && p.size > SHM_MAX_HEAP_SZ
  }

  /** `p'` of type `t'` stands in for `p` of type `t`, if that is large; `mark` is its converted flag. */
  ghost predicate StandsFor(t: Nibble, p: Parameter, t': Nibble, p': Parameter, mark: bool)
    reads if p'.Registered? then {p'.parent} else {}
  {
    if Big(t, p) then
      && t' == t + 8 && p'.Registered? && p'.refSize == p.size && p'.offset == 0
      && p'.parent.buffer == p.buffer && p'.parent.size == p.size && p'.parent.converted == mark
      // the lowest bit of the type is for input, the next one for output
      && p'.parent.input == (t % 2 == 1) && p'.parent.output == (t / 2 % 2 == 1)
    else t' == t && p' == p
  }

  const SUCCESS: int := 0
  const ERROR_GENERIC: int := 0xFFFF0000
  const ERROR_OUT_OF_MEMORY: int := 0xFFFF000C

  /** What happens to one promotion: whether malloc succeeds, whether a memory object can be had, and
      what the new memory holds where the flag goes. */
  datatype Chance = Chance(alloc: bool, memObj: bool, junk: bool)

  /** memref_temp_to_partial. Without a memory object register_shared_memory fails before it sets the
      flag. */
  method TempToPartial(op: Operation, i: nat, chance: Chance) returns (result: int)
    requires op.Valid() && i < MAX_NUM_PARAMS && Big(Get(op.paramTypes, i), op.params[i])
    modifies op
    ensures op.Valid() && Upper(op.paramTypes) == Upper(old(op.paramTypes))
    ensures forall j :: 0 <= j < MAX_NUM_PARAMS && j != i ==>
              Get(op.paramTypes, j) == Get(old(op.paramTypes), j) && op.params[j] == old(op.params)[j]
    ensures result == if !chance.alloc then 0xFFFF000C else if chance.memObj then 0 else 0xFFFF0000
    ensures !chance.alloc ==> op.paramTypes == old(op.paramTypes) && op.params == old(op.params)
    ensures chance.alloc ==>
              && op.params[i].Registered? && fresh(op.params[i].parent)
              && StandsFor(Get(old(op.paramTypes), i), old(op.params)[i], Get(op.paramTypes, i), op.params[i],
                           chance.memObj || chance.junk)
  {
    hide Get, Set, Upper;
    if !chance.alloc { return ERROR_OUT_OF_MEMORY; }
    var t, tmp := Get(op.paramTypes, i), op.params[i];
    var shm := new SharedMemory(tmp.buffer, tmp.size, t == TEMP_INPUT || t == TEMP_INOUT,
                                t == TEMP_OUTPUT || t == TEMP_INOUT, chance.junk);
    SetChanges(t + 8, i, op.paramTypes);
    op.params := op.params[i := Registered(shm, tmp.size, 0)];
    op.paramTypes := Set(t + 8, i, op.paramTypes);
    if !chance.memObj { return ERROR_GENERIC; }
    shm.converted := true;
    return SUCCESS;
  }

  /** A registered parameter that stands in for a temporary one. */
  ghost predicate StandIn(t: Nibble, p: Parameter)
    reads if p.Registered? then {p.parent} else {}
  {
    IsPartial(t) && p.Registered? && p.parent.converted
  }

  /** memref_temp_from_partial */
  method TempFromPartial(op: Operation, i: nat)
    requires op.Valid() && i < MAX_NUM_PARAMS && StandIn(Get(op.paramTypes, i), op.params[i])
    modifies op
    ensures op.Valid() && Upper(op.paramTypes) == Upper(old(op.paramTypes))
    ensures forall j :: 0 <= j < MAX_NUM_PARAMS && j != i ==>
              Get(op.paramTypes, j) == Get(old(op.paramTypes), j) && op.params[j] == old(op.params)[j]
    ensures Get(op.paramTypes, i) == Get(old(op.paramTypes), i) - 8
    ensures op.params[i] == Temp(old(op.params[i].parent.buffer), old(op.params[i].parent.size))
  {
    hide Get, Set, Upper;
    var t, parent := Get(op.paramTypes, i), op.params[i].parent;
    SetChanges(t - 8, i, op.paramTypes);
    op.params := op.params[i := Temp(parent.buffer, parent.size)];
    op.paramTypes := Set(t - 8, i, op.paramTypes);
  }

  /** The stand-ins, and only they, become temporary again. */
  ghost predicate Restores(t: Nibble, p: Parameter, t': Nibble, p': Parameter)
    reads if p.Registered? then {p.parent} else {}
  {
    if StandIn(t, p) then t' == t - 8 && p' == Temp(p.parent.buffer, p.parent.size) else t' == t && p' == p
  }

  /** memref_temp_from_partial_params */
  method TempFromPartialParams(op: Operation)
    requires op.Valid()
    modifies op
    ensures op.Valid() && Upper(op.paramTypes) == Upper(old(op.paramTypes))
    ensures forall j :: 0 <= j < MAX_NUM_PARAMS ==>
              Restores(Get(old(op.paramTypes), j), old(op.params)[j], Get(op.paramTypes, j), op.params[j])
  {
    hide Get, Upper;
    for i := 0 to MAX_NUM_PARAMS
      invariant op.Valid() && Upper(op.paramTypes) == Upper(old(op.paramTypes))
      invariant forall j :: i <= j < MAX_NUM_PARAMS ==>
                  Get(op.paramTypes, j) == Get(old(op.paramTypes), j) && op.params[j] == old(op.params)[j]
      invariant forall j :: 0 <= j < i ==>
                  Restores(Get(old(op.paramTypes), j), old(op.params)[j], Get(op.paramTypes, j), op.params[j])
    {
      var t := Get(op.paramTypes, i);
      if t == PARTIAL_INPUT || t == PARTIAL_OUTPUT || t == PARTIAL_INOUT {
        if op.params[i].parent.converted {
          TempFromPartial(op, i);
        }
      }
    }
  }

  /** Registered memory that a caller made itself is not marked. */
  ghost predicate Genuine(t: Nibble, p: Parameter)
    reads if p.Registered? then {p.parent} else {}
  {
    IsPartial(t) && p.Registered? ==> !p.parent.converted
  }

  /** Undoing a promotion: only the flag tells. */
  lemma StandsForRestores(t: Nibble, p: Parameter, t': Nibble, p': Parameter, t'': Nibble, p'': Parameter, mark: bool)
    requires Genuine(t, p) && StandsFor(t, p, t', p', mark) && Restores(t', p', t'', p'')
    ensures mark || !Big(t, p) ==> t'' == t && p'' == p
    ensures !mark && Big(t, p) ==> t'' == t' && p'' == p'
  {
  }

  /** The first promotion that fails; MAX_NUM_PARAMS if none does. */
  function FirstFailure(types: Word, params: seq<Parameter>, chances: seq<Chance>, from: nat): (f: nat)
    requires |params| == |chances| == MAX_NUM_PARAMS && from <= MAX_NUM_PARAMS
    ensures from <= f <= MAX_NUM_PARAMS
    ensures forall j :: from <= j < f && Big(Get(types, j), params[j]) ==> chances[j].alloc && chances[j].memObj
    ensures f < MAX_NUM_PARAMS ==> Big(Get(types, f), params[f]) && !(chances[f].alloc && chances[f].memObj)
    decreases MAX_NUM_PARAMS - from
  {
    if from == MAX_NUM_PARAMS then from
    else if Big(Get(types, from), params[from]) && !(chances[from].alloc && chances[from].memObj) then from
    else FirstFailure(types, params, chances, from + 1)
  }

  lemma {:induction false} FailsFirst(types: Word, params: seq<Parameter>, chances: seq<Chance>, from: nat, f: nat)
    requires |params| == |chances| == MAX_NUM_PARAMS && from <= f <= MAX_NUM_PARAMS
    requires forall j :: from <= j < f && Big(Get(types, j), params[j]) ==> chances[j].alloc && chances[j].memObj
    requires f < MAX_NUM_PARAMS ==> Big(Get(types, f), params[f]) && !(chances[f].alloc && chances[f].memObj)
    ensures FirstFailure(types, params, chances, from) == f
    decreases f - from
  {
    if from < f { FailsFirst(types, params, chances, from + 1, f); }
  }

  /** The parameter that stays promoted: its registration failed, and its flag happened to be unset. */
  predicate Sticks(types: Word, params: seq<Parameter>, chances: seq<Chance>, j: nat)
    requires |params| == |chances| == MAX_NUM_PARAMS
  {
    j < MAX_NUM_PARAMS && j == FirstFailure(types, params, chances, 0) && chances[j].alloc && !chances[j].junk
  }

  /** One large parameter, memory for its stand-in, but no memory object: it can stay promoted. */
  lemma CanStick()
    ensures Sticks(0x5, [Temp(0, 0x2000), Value(0, 0), Value(0, 0), Value(0, 0)],
                   [Chance(true, false, false), Chance(true, true, false), Chance(true, true, false), Chance(true, true, false)], 0)
  {
    assert Get(0x5, 0) == TEMP_INPUT;
  }

  /** As it was, unless it sticks. */
  ghost predicate Back(t: Nibble, p: Parameter, t': Nibble, p': Parameter, sticks: bool)
    reads if p'.Registered? then {p'.parent} else {}
  {
    if sticks then Big(t, p) && StandsFor(t, p, t', p', false) else t' == t && p' == p
  }

  /** Parameter j after promotion went on up to the failure at f. */
  ghost predicate Promoted(t: Nibble, p: Parameter, t': Nibble, p': Parameter, j: nat, f: nat, chance: Chance)
    reads if p'.Registered? then {p'.parent} else {}
  {
    if j < f then StandsFor(t, p, t', p', true)
    else if j == f && chance.alloc then Big(t, p) && StandsFor(t, p, t', p', chance.junk)
    else t' == t && p' == p
  }

  /** The loop of memref_temp_to_partial_params, up to the first failure. */
  method Promote(op: Operation, chances: seq<Chance>) returns (f: nat, result: int)
    requires op.Valid() && |chances| == MAX_NUM_PARAMS
    modifies op
    ensures op.Valid() && Upper(op.paramTypes) == Upper(old(op.paramTypes))
    ensures f == FirstFailure(old(op.paramTypes), old(op.params), chances, 0)
    ensures result == if f == MAX_NUM_PARAMS then SUCCESS
                      else if chances[f].alloc then ERROR_GENERIC else ERROR_OUT_OF_MEMORY
    ensures forall j :: 0 <= j < MAX_NUM_PARAMS ==>
              Promoted(Get(old(op.paramTypes), j), old(op.params)[j], Get(op.paramTypes, j), op.params[j], j, f, chances[j])
  {
    hide Get, Upper, FirstFailure;
    ghost var types, params := op.paramTypes, op.params;
    f := 0;
    while f < MAX_NUM_PARAMS
      invariant f <= MAX_NUM_PARAMS && op.Valid() && Upper(op.paramTypes) == Upper(types)
      invariant forall j :: f <= j < MAX_NUM_PARAMS ==> Get(op.paramTypes, j) == Get(types, j) && op.params[j] == params[j]
      invariant forall j :: 0 <= j < f ==> StandsFor(Get(types, j), params[j], Get(op.paramTypes, j), op.params[j], true)
      invariant forall j :: 0 <= j < f && Big(Get(types, j), params[j]) ==> chances[j].alloc && chances[j].memObj
    {
      var t := Get(op.paramTypes, f);
      if (t == TEMP_INPUT || t == TEMP_OUTPUT || t == TEMP_INOUT) && op.params[f].size > SHM_MAX_HEAP_SZ {
        result := TempToPartial(op, f, chances[f]);
        if result != SUCCESS {
          FailsFirst(types, params, chances, 0, f);
          return;
        }
      }
      f := f + 1;
    }
    FailsFirst(types, params, chances, 0, f);
    result := SUCCESS;
  }

  /** A temporary reference to more than a page. */
  predicate Registers(t: Nibble, p: Parameter) {
    5 <= t <= 7 && p.Temp? && p.size > 4096
  }

  /** memref_temp_to_partial_params */
  method TempToPartialParams(op: Operation, chances: seq<Chance>) returns (result: int)
    requires op.Valid() && |chances| == MAX_NUM_PARAMS
    requires forall j :: 0 <= j < MAX_NUM_PARAMS ==> Genuine(Get(op.paramTypes, j), op.params[j])
    modifies op
    ensures op.Valid() && Upper(op.paramTypes) == Upper(old(op.paramTypes))
    ensures var f := FirstFailure(old(op.paramTypes), old(op.params), chances, 0);
            result == if f == MAX_NUM_PARAMS then SUCCESS
                      else if chances[f].alloc then ERROR_GENERIC else ERROR_OUT_OF_MEMORY
    ensures result == SUCCESS ==> forall j :: 0 <= j < MAX_NUM_PARAMS ==>
              && StandsFor(Get(old(op.paramTypes), j), old(op.params)[j], Get(op.paramTypes, j), op.params[j], true)
              && (Registers(Get(old(op.paramTypes), j), old(op.params)[j]) <==>
                    Get(op.paramTypes, j) != Get(old(op.paramTypes), j))
    ensures result != SUCCESS ==> forall j :: 0 <= j < MAX_NUM_PARAMS ==>
              Back(Get(old(op.paramTypes), j), old(op.params)[j], Get(op.paramTypes, j), op.params[j],
                   Sticks(old(op.paramTypes), old(op.params), chances, j))
  {
    hide Get, Upper, FirstFailure, Genuine;
    ghost var types, params := op.paramTypes, op.params;
    var f;
    f, result := Promote(op, chances);
    if result != SUCCESS {
      assert forall j :: 0 <= j < MAX_NUM_PARAMS ==> Genuine(Get(types, j), params[j]);
      Undo(op, types, params, f, chances[f].alloc && !chances[f].junk);
    }
  }

  /** Taking back what was promoted leaves the operation as it was, but for a parameter f that sticks. */
  method Undo(op: Operation, ghost types: Word, ghost params: seq<Parameter>, ghost f: nat, ghost sticks: bool)
    requires op.Valid() && |params| == MAX_NUM_PARAMS && Upper(op.paramTypes) == Upper(types)
    requires forall j :: 0 <= j < MAX_NUM_PARAMS ==>
               && Genuine(Get(types, j), params[j])
               && if j == f && sticks then
                    Big(Get(types, j), params[j]) && StandsFor(Get(types, j), params[j], Get(op.paramTypes, j), op.params[j], false)
                  else
                    || StandsFor(Get(types, j), params[j], Get(op.paramTypes, j), op.params[j], true)
                    || (Get(op.paramTypes, j) == Get(types, j) && op.params[j] == params[j])
    modifies op
    ensures op.Valid() && Upper(op.paramTypes) == Upper(types)
    ensures forall j :: 0 <= j < MAX_NUM_PARAMS ==>
              Back(Get(types, j), params[j], Get(op.paramTypes, j), op.params[j], j == f && sticks)
  {
    hide Get, Upper;
    ghost var types', params' := op.paramTypes, op.params;
    TempFromPartialParams(op);
    forall j | 0 <= j < MAX_NUM_PARAMS
      ensures Back(Get(types, j), params[j], Get(op.paramTypes, j), op.params[j], j == f && sticks)
    {
      var mark := !(j == f && sticks);
      if StandsFor(Get(types, j), params[j], Get(types', j), params'[j], mark) {
        StandsForRestores(Get(types, j), params[j], Get(types', j), params'[j], Get(op.paramTypes, j), op.params[j], mark);
      }
    }
  }

  // ---------------------------------------------------------------- the types QTEE sees

  /** get_tee_type */
  function TeeType(t: Nibble, p: Parameter): Nibble
    requires Typed(t, p)
    reads if p.Registered? then {p.parent} else {}
  {
    if t == PARTIAL_INPUT then MEMREF_INPUT
    else if t == PARTIAL_OUTPUT then MEMREF_OUTPUT
    else if t == PARTIAL_INOUT then MEMREF_INOUT
    else if t == WHOLE then
      if p.parent.input && p.parent.output then MEMREF_INOUT
      else if p.parent.input then MEMREF_INPUT
      else if p.parent.output then MEMREF_OUTPUT
      else t
    else t
  }

  /** What QTEE is told of a parameter: four, one more for memory it may read and two more for memory it
      may write. Parts of registered memory say so in their type, the whole of it in its flags; without
      any flag, and for all other parameters, the type stays as it is. */
  ghost predicate Told(t: Nibble, p: Parameter, told: Nibble)
    reads if p.Registered? then {p.parent} else {}
  {
    && (0xD <= t <= 0xF ==> told == t - 8)
    && (t == 0xC && p.Registered? && (p.parent.input || p.parent.output) ==>
          told == 4 + (if p.parent.input then 1 else 0) + (if p.parent.output then 2 else 0))
    && (t == 0xC && p.Registered? && !p.parent.input && !p.parent.output ==> told == t)
    && (t < 0xC ==> told == t)
  }

  lemma TeeTypeTells(t: Nibble, p: Parameter)
    requires Typed(t, p)
    ensures Told(t, p, TeeType(t, p))
  {
  }

  /** tee_types_from_teec_types */
  method TeeTypes(op: Operation) returns (types: Word)
    requires op.Valid()
    ensures Upper(types) == Upper(op.paramTypes)
    ensures forall j :: 0 <= j < MAX_NUM_PARAMS ==> Get(types, j) == TeeType(Get(op.paramTypes, j), op.params[j])
    ensures forall j :: 0 <= j < MAX_NUM_PARAMS ==> Told(Get(op.paramTypes, j), op.params[j], Get(types, j))
  {
    hide Get, Set, Upper, TeeType, Told;
    types := op.paramTypes;
    for i := 0 to MAX_NUM_PARAMS
      invariant Upper(types) == Upper(op.paramTypes)
      invariant forall j :: 0 <= j < i ==> Get(types, j) == TeeType(Get(op.paramTypes, j), op.params[j])
      invariant forall j :: i <= j < MAX_NUM_PARAMS ==> Get(types, j) == Get(op.paramTypes, j)
    {
      var t := TeeType(Get(op.paramTypes, i), op.params[i]);
      SetChanges(t, i, types);
      types := Set(t, i, types);
    }
    forall j | 0 <= j < MAX_NUM_PARAMS ensures Told(Get(op.paramTypes, j), op.params[j], Get(types, j)) {
      TeeTypeTells(Get(op.paramTypes, j), op.params[j]);
    }
  }

  /** A stand-in looks to QTEE like the reference it stands for. */
  lemma SameTeeType(t: Nibble, p: Parameter, t': Nibble, p': Parameter, mark: bool)
    requires Typed(t, p) && Typed(t', p') && StandsFor(t, p, t', p', mark)
    ensures TeeType(t', p') == TeeType(t, p)
  {
  }

  /** The conversions around the call in invoke_command: the type word that goes to QTEE is the one it
      would be without any promotion, and the operation comes back as it was, all parameters and the
      whole type word, exactly if none of them sticks. */
  method InvokeCommand(op: Operation, chances: seq<Chance>) returns (sent: Word)
    requires op.Valid() && |chances| == MAX_NUM_PARAMS
    requires forall j :: 0 <= j < MAX_NUM_PARAMS ==> Genuine(Get(op.paramTypes, j), op.params[j])
    modifies op
    ensures op.Valid() && forall j :: 0 <= j < MAX_NUM_PARAMS ==>
              Back(Get(old(op.paramTypes), j), old(op.params)[j], Get(op.paramTypes, j), op.params[j],
                   Sticks(old(op.paramTypes), old(op.params), chances, j))
    ensures op.paramTypes == old(op.paramTypes) && op.params == old(op.params) <==>
            !exists j :: Sticks(old(op.paramTypes), old(op.params), chances, j)
    ensures Upper(sent) == Upper(old(op.paramTypes))
    ensures forall j :: 0 <= j < MAX_NUM_PARAMS ==>
              && Get(sent, j) == TeeType(Get(old(op.paramTypes), j), old(op.params)[j])
              && Told(Get(old(op.paramTypes), j), old(op.params)[j], Get(sent, j))
  {
    hide Get, Upper, TeeType, Told, FirstFailure, Genuine;
    ghost var types, params := op.paramTypes, op.params;
    ghost var f := FirstFailure(types, params, chances, 0);
    ghost var sticks := Sticks(types, params, chances, f);
    var result := TempToPartialParams(op, chances);
    sent := TeeTypes(op);
    forall j | 0 <= j < MAX_NUM_PARAMS
      ensures Get(sent, j) == TeeType(Get(types, j), params[j]) && Told(Get(types, j), params[j], Get(sent, j))
    {
      TeeTypeTells(Get(types, j), params[j]);
      if result == SUCCESS {
        SameTeeType(Get(types, j), params[j], Get(op.paramTypes, j), op.params[j], true);
      } else if j == f && sticks {
        SameTeeType(Get(types, j), params[j], Get(op.paramTypes, j), op.params[j], false);
      }
    }
    Undo(op, types, params, f, sticks);
    if !sticks {
      SameWord(op.paramTypes, types);
      assert op.params == params;
    } else {
      assert Get(op.paramTypes, f) == Get(types, f) + 8;
    }
  }
}
