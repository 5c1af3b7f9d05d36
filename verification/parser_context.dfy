/**
 * The bookkeeping object of the pattern parser
 * (src/librexgen/parser/rexgenparsercontext.cpp): the decoded input and its
 * cursor, the table of capturing groups, the table of back-references waiting
 * for their group, the pass that binds references to groups, the check over
 * those bindings, and the lazily created stream anchor.
 *
 * Shared pointers are modelled by Dafny objects. A weak handle is a nullable
 * reference `Regex?`; whether the node it names is still owned by the pattern
 * tree is given by a set `live` of the nodes the tree currently owns. A handle
 * is expired when it was never set or its node is not in `live`.
 */
module ParserContext {
  import opened Wrappers
  import UChar

  /** A `wchar_t` as the multibyte decoder fills it in (32 bits, signed). */
  type WChar = x: int | -0x8000_0000 <= x < 0x8000_0000

  /**
   * One step of the multibyte decoder on the bytes that remain: the number of
   * bytes it consumed (a value <= 0 ends decoding: end of input or an invalid
   * sequence) and the character it produced.
   */
  type DecodeStep = seq<UChar.Byte> -> (int, WChar)

  /** A decoder never claims more bytes than remain. */
  ghost predicate ValidDecoder(decode: DecodeStep)
  {
    forall s: seq<UChar.Byte> :: decode(s).0 <= |s|
  }

  /**
   * Whether a step moves the loop forward over `input`: it consumed at least one
   * byte, and (as a valid decoder always does) no more than remain.
   */
  predicate Advances(step: (int, WChar), input: seq<UChar.Byte>)
  {
    0 < step.0 <= |input|
  }

  /**
   * The characters the decoding loop collects from `input`, and the number of
   * bytes it advances over: it stops at the first step that does not advance.
   */
  function Decoded(decode: DecodeStep, input: seq<UChar.Byte>): (r: (seq<WChar>, nat))
    ensures r.1 <= |input| && |r.0| <= r.1
    ensures |r.0| == 0 <==> !Advances(decode(input), input)
    decreases |input|
  {
    var (size, wc) := decode(input);
    if Advances(decode(input), input) then
      var (rest, used) := Decoded(decode, input[size..]);
      ([wc] + rest, size + used)
    else
      ([], 0)
  }

  /**
   * For a valid decoder the loop stops exactly where a step returns <= 0: at the
   * position it has advanced to.
   */
  lemma {:induction false} DecodedStopsAtNonPositiveStep(decode: DecodeStep, input: seq<UChar.Byte>)
    requires ValidDecoder(decode)
    ensures decode(input[Decoded(decode, input).1..]).0 <= 0
    decreases |input|
  {
    var size := decode(input).0;
    if size > 0 {
      DecodedStopsAtNonPositiveStep(decode, input[size..]);
      var used := Decoded(decode, input[size..]).1;
      assert input[size..][used..] == input[size + used..];
    }
  }

  /** A step that does not advance ends decoding with nothing collected. */
  lemma DecodedStop(decode: DecodeStep, input: seq<UChar.Byte>)
    requires !Advances(decode(input), input)
    ensures Decoded(decode, input) == ([], 0)
  {
  }

  /** One advancing step: its character comes first, the rest is decoded after it. */
  lemma DecodedStep(decode: DecodeStep, input: seq<UChar.Byte>)
    requires Advances(decode(input), input)
    ensures Decoded(decode, input).0 == [decode(input).1] + Decoded(decode, input[decode(input).0..]).0
    ensures Decoded(decode, input).1 == decode(input).0 + Decoded(decode, input[decode(input).0..]).1
  {
  }

  /**
   * The loop invariant of the decoding loop: having collected `chars` and advanced
   * to `pos`, decoding what remains completes the decoding of the whole input.
   */
  ghost predicate DecodesTo(decode: DecodeStep, input: seq<UChar.Byte>, chars: seq<WChar>, pos: nat)
  {
    pos <= |input| &&
    Decoded(decode, input) == (chars + Decoded(decode, input[pos..]).0, pos + Decoded(decode, input[pos..]).1)
  }

  lemma DecodesToStart(decode: DecodeStep, input: seq<UChar.Byte>)
    ensures DecodesTo(decode, input, [], 0)
  {
    assert input[0..] == input;
    assert [] + Decoded(decode, input).0 == Decoded(decode, input).0;
  }

  lemma DecodesToAdvance(decode: DecodeStep, input: seq<UChar.Byte>, chars: seq<WChar>, pos: nat)
    requires DecodesTo(decode, input, chars, pos)
    requires Advances(decode(input[pos..]), input[pos..])
    ensures DecodesTo(decode, input, chars + [decode(input[pos..]).1], pos + decode(input[pos..]).0)
  {
    var (size, wc) := decode(input[pos..]);
    DecodedStep(decode, input[pos..]);
    assert input[pos..][size..] == input[pos + size..];
    var (rest, used) := Decoded(decode, input[pos + size..]);
    assert chars + ([wc] + rest) == (chars + [wc]) + rest;
  }

  lemma DecodesToStop(decode: DecodeStep, input: seq<UChar.Byte>, chars: seq<WChar>, pos: nat)
    requires DecodesTo(decode, input, chars, pos)
    requires !Advances(decode(input[pos..]), input[pos..])
    ensures Decoded(decode, input) == (chars, pos)
  {
    DecodedStop(decode, input[pos..]);
    assert chars + [] == chars;
  }

  /**
   * The decoding loop of the parser context's constructor: steps the decoder over
   * the input, collecting each character and advancing by the bytes consumed,
   * until a step returns <= 0.
   */
  method DecodeInput(input: seq<UChar.Byte>, decode: DecodeStep) returns (chars: seq<WChar>, pos: nat)
    requires ValidDecoder(decode)
    ensures (chars, pos) == Decoded(decode, input)
  {
    chars := [];
    pos := 0;
    DecodesToStart(decode, input);
    while true
      invariant DecodesTo(decode, input, chars, pos)
      decreases |input| - pos
    {
      var step := decode(input[pos..]);
      if step.0 <= 0 {
        DecodesToStop(decode, input, chars, pos);
        return;
      }
      DecodesToAdvance(decode, input, chars, pos);
      chars := chars + [step.1];
      pos := pos + step.0;
    }
  }

  class Regex {
    const id: int
    const groupId: int

    constructor (id: int, groupId: int)
      ensures this.id == id && this.groupId == groupId
    {
      this.id := id;
      this.groupId := groupId;
    }
  }

  /** A back-reference node: the group number it names and its weak link to the node it repeats. */
  class GroupReference {
    const groupId: int
    var target: Regex?

    constructor (groupId: int)
      ensures this.groupId == groupId && target == null
    {
      this.groupId := groupId;
      target := null;
    }

    /** `setRegex`: points the reference at `re`, replacing whatever it pointed at. */
    method SetRegex(re: Regex)
      modifies this
      ensures target == re
    {
      target := re;
    }
  }

  /** What `getStreamRegex` hands out: the anchor itself, or a reference node bound to it. */
  datatype RegexHandle = Node(re: Regex) | Reference(ref: GroupReference)

  /** `weak_ptr::expired`: the handle was never set, or its node is no longer owned. */
  predicate Expired(link: Regex?, live: set<Regex>)
  {
    link == null || link !in live
  }

  /**
   * A non-empty set of references has a member (what a `:|` pick over it relies on).
   * It is stated once per element type because a version generic in the element type
   * does not go through for the set of group numbers.
   */
  lemma NonEmptyHasMember(s: set<GroupReference>)
    requires s != {}
    ensures exists x :: x in s
  {
    if forall x :: x !in s {
      assert false;
    }
  }

  /** A non-empty set of group numbers has a member. */
  lemma NonEmptyHasKey(s: set<int>)
    requires s != {}
    ensures exists x :: x in s
  {
    if forall x :: x !in s {
      assert false;
    }
  }

  /** The references registered under `id`, or none. */
  function RefsUnder(refs: map<int, set<GroupReference>>, id: int): set<GroupReference>
  {
    if id in refs then refs[id] else {}
  }

  class RexgenParserContext {
    /** The decoded input (`wcinput`) and the cursor into it (`next_char`). */
    var wcinput: seq<WChar>
    var nextChar: nat
    var currentChar: WChar
    /** The number the next capturing group will get. */
    var groupId: int
    /** Group number to a weak handle of the group's node. */
    var groups: map<int, Regex>
    /** Group number to the references that name it. */
    var groupRefs: map<int, set<GroupReference>>
    /** The stream anchor, once created. */
    var streamRegex: Regex?
    /** How many input bytes the decoding loop advanced over. */
    ghost var consumed: nat

    ghost predicate Valid()
      reads this
    {
      && nextChar <= |wcinput|
      && (forall id :: id in groups ==> groups[id].groupId == id)
      && (forall id, gr :: id in groupRefs && gr in groupRefs[id] ==> gr.groupId == id)
    }

    /** Every registered reference. */
    ghost function Refs(): set<GroupReference>
      reads this
    {
      set id, gr | id in groupRefs && gr in groupRefs[id] :: gr
    }

    /** Some registered reference has a target that is not expired. */
    ghost predicate SomeReferenceBound(live: set<Regex>)
      reads this, Refs()
    {
      exists gr :: gr in Refs() && !Expired(gr.target, live)
    }

    /** Some registered reference has an expired (or never set) target. */
    ghost predicate SomeReferenceUnbound(live: set<Regex>)
      reads this, Refs()
    {
      exists gr :: gr in Refs() && Expired(gr.target, live)
    }

    /** Every reference whose group has a live entry in `groups` points at that group. */
    ghost predicate Resolved(live: set<Regex>)
      reads this, Refs()
    {
      forall gr :: gr in Refs() && gr.groupId in groups && groups[gr.groupId] in live ==>
        gr.target == groups[gr.groupId]
    }

    /**
     * The constructor: decodes `input` one step at a time into `wcinput`, stopping at
     * the first step that returns <= 0, and starts with empty tables.
     */
    constructor (input: seq<UChar.Byte>, decode: DecodeStep)
      requires ValidDecoder(decode)
      ensures Valid()
      ensures (wcinput, consumed) == Decoded(decode, input)
      ensures nextChar == 0 && groupId == 1 && streamRegex == null
      ensures groups == map[] && groupRefs == map[]
    {
      var chars, pos := DecodeInput(input, decode);
      wcinput := chars;
      consumed := pos;
      nextChar := 0;
      currentChar := 0;
      groupId := 1;
      groups := map[];
      groupRefs := map[];
      streamRegex := null;
    }

    /** `getNextChar`: returns the character under the cursor, records it and advances. */
    method GetNextChar() returns (c: WChar)
      requires Valid() && nextChar < |wcinput|
      modifies this`nextChar, this`currentChar
      ensures Valid()
      ensures c == wcinput[old(nextChar)] && currentChar == c
      ensures nextChar == old(nextChar) + 1
    {
      currentChar := wcinput[nextChar];
      nextChar := nextChar + 1;
      c := currentChar;
    }

    /** `registerGroupReference`: adds `gr` to the set under its group number, creating the set if absent. */
    method RegisterGroupReference(gr: GroupReference)
      requires Valid()
      modifies this`groupRefs
      ensures Valid()
      ensures groupRefs == old(groupRefs)[gr.groupId := RefsUnder(old(groupRefs), gr.groupId) + {gr}]
      ensures gr.groupId in groupRefs && gr in groupRefs[gr.groupId]
      ensures forall id :: id != gr.groupId ==> RefsUnder(groupRefs, id) == RefsUnder(old(groupRefs), id)
      ensures gr in RefsUnder(old(groupRefs), gr.groupId) ==> groupRefs == old(groupRefs)
    {
      if gr.groupId !in groupRefs {
        groupRefs := groupRefs[gr.groupId := {}];
      }
      groupRefs := groupRefs[gr.groupId := groupRefs[gr.groupId] + {gr}];
      if gr in RefsUnder(old(groupRefs), gr.groupId) {
        assert groupRefs[gr.groupId] == old(groupRefs)[gr.groupId];
        assert groupRefs == old(groupRefs);
      }
    }

    /**
     * `getGroupReferences`: the set registered under `id`; `None` where the lookup
     * throws because nothing is registered under `id`.
     */
    method GetGroupReferences(id: int) returns (refs: Option<set<GroupReference>>)
      requires Valid()
      ensures refs.Some? <==> id in groupRefs
      ensures refs.Some? ==> refs.value == groupRefs[id] && forall gr :: gr in refs.value ==> gr.groupId == id
    {
      if id in groupRefs {
        refs := Some(groupRefs[id]);
      } else {
        refs := None;
      }
    }

    /**
     * `registerGroup`: a handle that can still be locked goes in under its node's group
     * number, unless that number is taken (`map::insert` does not overwrite).
     */
    method RegisterGroup(wre: Regex?, live: set<Regex>)
      requires Valid()
      modifies this`groups
      ensures Valid()
      ensures groups == if !Expired(wre, live) && wre.groupId !in old(groups)
                        then old(groups)[wre.groupId := wre] else old(groups)
    {
      if wre != null && wre in live {
        var re := wre;
        if re.groupId !in groups {
          groups := groups[re.groupId := wre];
        }
      }
    }

    /**
     * `getGroupRegex`: the handle registered under `id`; `None` where the lookup
     * throws because no group `id` was registered.
     */
    method GetGroupRegex(id: int) returns (wre: Option<Regex>)
      requires Valid()
      ensures wre.Some? <==> id in groups
      ensures wre.Some? ==> wre.value == groups[id] && wre.value.groupId == id
    {
      if id in groups {
        wre := Some(groups[id]);
      } else {
        wre := None;
      }
    }

    /** `getGroups`: the whole group table. */
    method GetGroups() returns (gs: map<int, Regex>)
      requires Valid()
      ensures gs == groups
      ensures forall id :: id in gs ==> gs[id].groupId == id
    {
      gs := groups;
    }

    /**
     * `updateGroupReferences`: when `wre` can be locked, every reference registered
     * under its node's group number is pointed at it; nothing else changes.
     */
    method UpdateGroupReferences(wre: Regex?, live: set<Regex>)
      requires Valid()
      modifies Refs()
      ensures forall gr :: gr in Refs() ==>
        gr.target == if !Expired(wre, live) && gr.groupId == wre.groupId then wre else old(gr.target)
    {
      if wre != null && wre in live {
        var re := wre;
        var ids := groupRefs.Keys;
        while ids != {}
          invariant ids <= groupRefs.Keys
          invariant forall gr :: gr in Refs() ==>
            gr.target == if gr.groupId == re.groupId && gr.groupId !in ids then re else old(gr.target)
          decreases ids
        {
          NonEmptyHasKey(ids);
          var id :| id in ids;
          var todo := groupRefs[id];
          while todo != {}
            invariant todo <= groupRefs[id]
            invariant forall gr :: gr in Refs() ==>
              gr.target == if gr.groupId == re.groupId && (gr.groupId !in ids || (gr.groupId == id && gr !in todo))
                           then re else old(gr.target)
            decreases todo
          {
            NonEmptyHasMember(todo);
            var gr :| gr in todo;
            if id == re.groupId {
              gr.SetRegex(re);
            }
            todo := todo - {gr};
          }
          ids := ids - {id};
        }
      }
    }

    /**
     * `updateAllGroupReferences`: for every group whose handle can be locked, binds the
     * references under its number to it. References without a live group keep their target.
     */
    method UpdateAllGroupReferences(live: set<Regex>)
      requires Valid()
      modifies Refs()
      ensures forall gr :: gr in Refs() ==>
        gr.target == if gr.groupId in groups && groups[gr.groupId] in live then groups[gr.groupId] else old(gr.target)
      ensures Resolved(live)
    {
      var ids := groups.Keys;
      while ids != {}
        invariant ids <= groups.Keys
        invariant forall gr :: gr in Refs() ==>
          gr.target == if gr.groupId in groups && gr.groupId !in ids && groups[gr.groupId] in live
                       then groups[gr.groupId] else old(gr.target)
        decreases ids
      {
        NonEmptyHasKey(ids);
        var id :| id in ids;
        if groups[id] in live {
          UpdateGroupReferences(groups[id], live);
        }
        ids := ids - {id};
      }
    }

    /**
     * `hasInvalidGroupReferences`, as written: true exactly when some registered reference
     * is BOUND (its target is not expired), and false when no reference is registered.
     */
    method HasInvalidGroupReferences(live: set<Regex>) returns (invalids: bool)
      requires Valid()
      ensures invalids <==> SomeReferenceBound(live)
      ensures groupRefs == map[] ==> !invalids
    {
      invalids := false;
      var ids := groupRefs.Keys;
      while ids != {}
        invariant ids <= groupRefs.Keys
        invariant invalids <==> exists gr :: gr in Refs() && gr.groupId !in ids && !Expired(gr.target, live)
        decreases ids
      {
        NonEmptyHasKey(ids);
        var id :| id in ids;
        var todo := groupRefs[id];
        while todo != {}
          invariant todo <= groupRefs[id]
          invariant invalids <==> exists gr :: gr in Refs() && (gr.groupId !in ids || (gr.groupId == id && gr !in todo))
                                               && !Expired(gr.target, live)
          decreases todo
        {
          NonEmptyHasMember(todo);
          var gr :| gr in todo;
          invalids := invalids || !Expired(gr.target, live);
          todo := todo - {gr};
        }
        ids := ids - {id};
      }
    }

    /** The check the name promises: true exactly when some registered reference is unbound. */
    method HasUnboundGroupReferences(live: set<Regex>) returns (dangling: bool)
      requires Valid()
      ensures dangling <==> SomeReferenceUnbound(live)
      ensures groupRefs == map[] ==> !dangling
    {
      dangling := false;
      var ids := groupRefs.Keys;
      while ids != {}
        invariant ids <= groupRefs.Keys
        invariant dangling <==> exists gr :: gr in Refs() && gr.groupId !in ids && Expired(gr.target, live)
        decreases ids
      {
        NonEmptyHasKey(ids);
        var id :| id in ids;
        var todo := groupRefs[id];
        while todo != {}
          invariant todo <= groupRefs[id]
          invariant dangling <==> exists gr :: gr in Refs() && (gr.groupId !in ids || (gr.groupId == id && gr !in todo))
                                               && Expired(gr.target, live)
          decreases todo
        {
          NonEmptyHasMember(todo);
          var gr :| gr in todo;
          dangling := dangling || Expired(gr.target, live);
          todo := todo - {gr};
        }
        ids := ids - {id};
      }
    }

    /**
     * After resolution, when every reference names a group with a live entry, no reference
     * is dangling, and yet the check as written reports "invalid" as soon as one exists.
     */
    lemma ResolvedReferencesReadAsInvalid(live: set<Regex>)
      requires Valid() && Resolved(live)
      requires forall gr :: gr in Refs() ==> gr.groupId in groups && groups[gr.groupId] in live
      ensures !SomeReferenceUnbound(live)
      ensures Refs() != {} ==> SomeReferenceBound(live)
    {
      if Refs() != {} {
        var gr :| gr in Refs();
        assert !Expired(gr.target, live);
      }
    }

    /**
     * `getStreamRegex`: the first call creates the anchor (with the ids the node
     * constructor hands out, `anchorId` and `anchorGroupId`), keeps it and returns it;
     * every later call returns a new reference node numbered with the anchor's id and
     * bound to that same anchor. Neither table is touched.
     */
    method GetStreamRegex(anchorId: int, anchorGroupId: int) returns (r: RegexHandle)
      modifies this`streamRegex
      ensures streamRegex != null
      ensures old(streamRegex) == null ==>
        fresh(streamRegex) && streamRegex.id == anchorId && streamRegex.groupId == anchorGroupId
        && r == Node(streamRegex)
      ensures old(streamRegex) != null ==>
        streamRegex == old(streamRegex) && r.Reference? && fresh(r.ref)
        && r.ref.groupId == streamRegex.id && r.ref.target == streamRegex
    {
      if streamRegex == null {
        streamRegex := new Regex(anchorId, anchorGroupId);
        r := Node(streamRegex);
      } else {
        var gr := new GroupReference(streamRegex.id);
        gr.SetRegex(streamRegex);
        r := Reference(gr);
      }
    }
  }

  /**
   * The bookkeeping for the pattern `(a)\1`: group 1 is registered, a reference to
   * group 1 is registered, and the resolution pass runs. The reference is then bound,
   * the check as written reports an invalid reference, and the intended check reports none.
   */
  method BackReferenceScenario() returns (asWritten: bool, intended: bool)
    ensures asWritten && !intended
  {
    var ctx := new RexgenParserContext([], (s: seq<UChar.Byte>) => (0, 0));
    var group := new Regex(1, 1);
    var live := {group};
    ctx.RegisterGroup(group, live);
    var ref := new GroupReference(1);
    ctx.RegisterGroupReference(ref);
    assert ctx.Refs() == {ref};
    ctx.UpdateAllGroupReferences(live);
    asWritten := ctx.HasInvalidGroupReferences(live);
    intended := ctx.HasUnboundGroupReferences(live);
  }

  /**
   * The bookkeeping for the pattern `\1` with no group 1: a reference to group 1 is
   * registered and the resolution pass runs with no live group. The reference stays
   * unbound; the check as written misses it, and the intended check reports it.
   */
  method DanglingReferenceScenario() returns (asWritten: bool, intended: bool)
    ensures !asWritten && intended
  {
    var ctx := new RexgenParserContext([], (s: seq<UChar.Byte>) => (0, 0));
    var ref := new GroupReference(1);
    ctx.RegisterGroupReference(ref);
    assert ctx.Refs() == {ref};
    ctx.UpdateAllGroupReferences({});
    asWritten := ctx.HasInvalidGroupReferences({});
    intended := ctx.HasUnboundGroupReferences({});
  }
}
