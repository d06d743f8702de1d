/**
  Several members written, and then read back, one after another in the same
  serialization session, so that they share the session's two reference tables.
  This is where reuse pays off: an object met again is written as an index, the
  indices handed out are 0, 1, 2, ... in the order objects are first met, and the
  reader rebuilds the same objects from them.
*/
module SessionProperties {
  import opened Wrappers
  import opened Types
  import opened Wire
  import opened Registry
  import opened Framing
  import opened WriteProperties
  import opened RoundTrip

  /** One member of a serialized object, as its member serializer was built: the
      generated class and entry point, the member's declared type and the
      DataSerializer it was given. Members of one session may differ in all three. */
  datatype Member = Member(v: Variant, declared: DeclaredType, dataSerializer: Option<Codec>)

  /** The writes of a session's members, as the session uses them: the position of the
      member, its value and the write table in, the effect out. */
  type Writer = (nat, Option<Obj>, map<Obj, int>) -> WriteEffect

  /** The reads of a session's members: the position of the member, the stream from the
      cursor on and the read table in, the effect out; no read passes the stream's end. */
  type Reader = f: (nat, seq<Token>, seq<Option<Obj>>) -> ReadEffect
    | forall i, input, refs :: f(i, input, refs).consumed <= |input|
    witness (i: nat, input: seq<Token>, refs: seq<Option<Obj>>) => ReadEffect(0, refs, [], Err(EndOfStream))

  /** The member serializers of `members`, in a session with selector `sel` and external
      table `externals`; a position past the last member writes nothing. */
  function SessionWriter(sel: SerializerSelector, externals: Option<map<Guid, Obj>>, members: seq<Member>)
    : (write: Writer)
    ensures forall i: nat, obj, refs | i < |members| ::
      write(i, obj, refs) == WriteSpec(members[i].v, sel, externals, members[i].declared, members[i].dataSerializer, obj, refs)
  {
    (i: nat, obj: Option<Obj>, refs: map<Obj, int>) =>
      if i < |members| then WriteSpec(members[i].v, sel, externals, members[i].declared, members[i].dataSerializer, obj, refs)
      else WriteEffect([], refs, [], Success)
  }

  /** The reads of `members`, each into a member that holds null on entry; a position
      past the last member reads nothing. */
  function SessionReader(sel: SerializerSelector, externals: Option<map<Guid, Obj>>, hasCallback: bool, members: seq<Member>)
    : (read: Reader)
    ensures forall i: nat, input, refs | i < |members| ::
      read(i, input, refs)
      == ReadSpec(members[i].v, sel, externals, hasCallback, members[i].declared, members[i].dataSerializer, None, input, refs)
  {
    (i: nat, input: seq<Token>, refs: seq<Option<Obj>>) =>
      if i < |members| then ReadSpec(members[i].v, sel, externals, hasCallback, members[i].declared, members[i].dataSerializer, None, input, refs)
      else ReadEffect(0, refs, [], Ok(None))
  }

  /** Writes `objs[k]` as the member at position `i + k`, in order, sharing one write
      table, and stops at the first write that throws. */
  function WriteAll(write: Writer, i: nat, objs: seq<Option<Obj>>, refs: map<Obj, int>): (e: WriteEffect)
    decreases |objs|
  {
    if objs == [] then WriteEffect([], refs, [], Success)
    else
      var first := write(i, objs[0], refs);
      if first.status.Failure? then first
      else
        var rest := WriteAll(write, i + 1, objs[1..], first.refs);
        WriteEffect(first.emitted + rest.emitted, rest.refs, first.events + rest.events, rest.status)
  }

  /** What reading several members produces: the tokens consumed, the new read table,
      the values read, and the error of the read that threw, if one did. */
  datatype ReadAllEffect = ReadAllEffect(
    consumed: nat, refs: seq<Option<Obj>>, values: seq<Option<Obj>>, error: Option<SerializationError>)

  /** Reads the `n` members at positions `i`, `i + 1`, ..., in order, sharing one read
      table, and stops at the first read that throws. */
  function ReadAll(read: Reader, i: nat, n: nat, input: seq<Token>, refs: seq<Option<Obj>>): (e: ReadAllEffect)
    ensures e.consumed <= |input|
    ensures e.error.None? ==> |e.values| == n
    decreases n
  {
    if n == 0 then ReadAllEffect(0, refs, [], None)
    else
      var first := read(i, input, refs);
      if first.result.Err? then ReadAllEffect(first.consumed, first.refs, [], Some(first.result.error))
      else
        var rest := ReadAll(read, i + 1, n - 1, input[first.consumed..], first.refs);
        ReadAllEffect(first.consumed + rest.consumed, rest.refs, [first.result.value] + rest.values, rest.error)
  }

  /** A relation between a write table and a read table that a session keeps. */
  type TableInvariant = (map<Obj, int>, seq<Option<Obj>>) -> bool

  /** With the tables `w` and `r` in step, the read of the member at position `i`
      reads back, whatever `rest` follows, the `obj` its write wrote, using exactly the
      tokens written, and the tables end in step. */
  ghost predicate MirrorsAt(
    write: Writer, read: Reader, inStep: TableInvariant, i: nat, obj: Option<Obj>, w: map<Obj, int>, r: seq<Option<Obj>>, rest: seq<Token>)
  {
    inStep(w, r) && write(i, obj, w).status.Success? ==>
      var re := read(i, write(i, obj, w).emitted + rest, r);
      && re.result == Ok(obj)
      && re.consumed == |write(i, obj, w).emitted|
      && inStep(write(i, obj, w).refs, re.refs)
  }

  /** The read of the member at position `i` reads `obj` back as its write wrote it,
      whatever follows, with the tables in step before and after. */
  ghost predicate Mirrors(write: Writer, read: Reader, inStep: TableInvariant, i: nat, obj: Option<Obj>)
  {
    forall w, r, rest :: MirrorsAt(write, read, inStep, i, obj, w, r, rest)
  }

  /** Each member from position `i` on mirrors its value of `objs`. */
  ghost predicate AllMirror(write: Writer, read: Reader, inStep: TableInvariant, i: nat, objs: seq<Option<Obj>>)
    decreases |objs|
  {
    objs != [] ==> Mirrors(write, read, inStep, i, objs[0]) && AllMirror(write, read, inStep, i + 1, objs[1..])
  }

  /** A member serializer's read mirrors its write, for an object the external table
      resolves and a selector whose two lookups agree. */
  lemma MemberMirrors(
    sel: SerializerSelector, externals: Option<map<Guid, Obj>>, hasCallback: bool, members: seq<Member>,
    i: nat, obj: Option<Obj>)
    requires i < |members|
    requires SelectorConsistent(sel)
    requires obj.Some? ==> ExternalResolves(externals, obj.value)
    ensures Mirrors(SessionWriter(sel, externals, members), SessionReader(sel, externals, hasCallback, members), Corresponds, i, obj)
  {
    var write := SessionWriter(sel, externals, members);
    var read := SessionReader(sel, externals, hasCallback, members);
    var m := members[i];
    forall w, r, rest ensures MirrorsAt(write, read, Corresponds, i, obj, w, r, rest) {
      if Corresponds(w, r) && write(i, obj, w).status.Success? {
        RoundTripValue(m.v, sel, externals, hasCallback, m.declared, m.dataSerializer, None, obj, w, r, rest);
      }
    }
  }

  /** The members of a session mirror each other, for values the external table
      resolves and a selector whose two lookups agree. */
  lemma {:induction false} MembersMirror(
    sel: SerializerSelector, externals: Option<map<Guid, Obj>>, hasCallback: bool, members: seq<Member>,
    i: nat, objs: seq<Option<Obj>>)
    requires i + |objs| <= |members|
    requires SelectorConsistent(sel)
    requires forall k :: 0 <= k < |objs| && objs[k].Some? ==> ExternalResolves(externals, objs[k].value)
    ensures AllMirror(SessionWriter(sel, externals, members), SessionReader(sel, externals, hasCallback, members), Corresponds, i, objs)
    decreases |objs|
  {
    if objs != [] {
      MemberMirrors(sel, externals, hasCallback, members, i, objs[0]);
      forall k | 0 <= k < |objs[1..]| && objs[1..][k].Some?
        ensures ExternalResolves(externals, objs[1..][k].value)
      {
        assert objs[1..][k] == objs[k + 1];
      }
      MembersMirror(sel, externals, hasCallback, members, i + 1, objs[1..]);
    }
  }

  /** A successful WriteAll of several values is the first member's write followed by
      the WriteAll of the rest. */
  lemma WriteAllCons(write: Writer, i: nat, objs: seq<Option<Obj>>, w: map<Obj, int>)
    requires objs != [] && WriteAll(write, i, objs, w).status.Success?
    ensures var first := write(i, objs[0], w);
      var tail := WriteAll(write, i + 1, objs[1..], first.refs);
      && first.status.Success? && tail.status.Success?
      && WriteAll(write, i, objs, w).emitted == first.emitted + tail.emitted
      && WriteAll(write, i, objs, w).refs == tail.refs
  {
  }

  /** A ReadAll whose first read succeeds continues with the rest of the members where
      that read stopped. */
  lemma ReadAllCons(read: Reader, i: nat, n: nat, input: seq<Token>, r: seq<Option<Obj>>, more: seq<Token>)
    requires n > 0
    requires read(i, input, r).result.Ok? && input[read(i, input, r).consumed..] == more
    ensures var first := read(i, input, r);
      var tail := ReadAll(read, i + 1, n - 1, more, first.refs);
      ReadAll(read, i, n, input, r)
      == ReadAllEffect(first.consumed + tail.consumed, tail.refs, [first.result.value] + tail.values, tail.error)
  {
  }

  /** One member's mirror, at the tables and the stream of one session. */
  lemma MirrorStep(
    write: Writer, read: Reader, inStep: TableInvariant, i: nat, obj: Option<Obj>, w: map<Obj, int>, r: seq<Option<Obj>>, more: seq<Token>)
    requires Mirrors(write, read, inStep, i, obj) && inStep(w, r) && write(i, obj, w).status.Success?
    ensures var e := write(i, obj, w);
      var re := read(i, e.emitted + more, r);
      && re.result == Ok(obj) && re.consumed == |e.emitted| && inStep(e.refs, re.refs)
      && (e.emitted + more)[re.consumed..] == more
  {
    assert MirrorsAt(write, read, inStep, i, obj, w, r, more);
    var e := write(i, obj, w);
    assert (e.emitted + more)[|e.emitted|..] == more;
  }

  /** The round trip of the first member, followed by that of the rest, is the round
      trip of them all. */
  lemma RoundTripCons(
    write: Writer, read: Reader, inStep: TableInvariant, i: nat, objs: seq<Option<Obj>>,
    w: map<Obj, int>, r: seq<Option<Obj>>, rest: seq<Token>)
    requires objs != []
    requires Mirrors(write, read, inStep, i, objs[0]) && inStep(w, r)
    requires WriteAll(write, i, objs, w).status.Success?
    requires var first := write(i, objs[0], w);
      var tail := WriteAll(write, i + 1, objs[1..], first.refs);
      var re1 := read(i, first.emitted + (tail.emitted + rest), r);
      var reTail := ReadAll(read, i + 1, |objs[1..]|, tail.emitted + rest, re1.refs);
      && reTail.error.None? && reTail.values == objs[1..] && reTail.consumed == |tail.emitted|
      && inStep(tail.refs, reTail.refs)
    ensures var we := WriteAll(write, i, objs, w);
      var re := ReadAll(read, i, |objs|, we.emitted + rest, r);
      && re.error.None? && re.values == objs && re.consumed == |we.emitted| && inStep(we.refs, re.refs)
  {
    WriteAllCons(write, i, objs, w);
    var we := WriteAll(write, i, objs, w);
    var first := write(i, objs[0], w);
    var tail := WriteAll(write, i + 1, objs[1..], first.refs);
    var more := tail.emitted + rest;
    var input := we.emitted + rest;
    assert input == first.emitted + more;
    MirrorStep(write, read, inStep, i, objs[0], w, r, more);
    var re1 := read(i, input, r);
    ReadAllCons(read, i, |objs|, input, r, more);
    ConsEffects(inStep, objs, we, first, tail, ReadAll(read, i, |objs|, input, r), re1,
                ReadAll(read, i + 1, |objs| - 1, more, re1.refs));
  }

  /** The effects of the first member and of the rest add up to those of them all. */
  lemma ConsEffects(
    inStep: TableInvariant, objs: seq<Option<Obj>>, we: WriteEffect, first: WriteEffect, tail: WriteEffect,
    re: ReadAllEffect, re1: ReadEffect, reTail: ReadAllEffect)
    requires objs != []
    requires we.emitted == first.emitted + tail.emitted && we.refs == tail.refs
    requires re1.result == Ok(objs[0]) && re1.consumed == |first.emitted|
    requires re == ReadAllEffect(re1.consumed + reTail.consumed, reTail.refs, [re1.result.value] + reTail.values, reTail.error)
    requires reTail.error.None? && reTail.values == objs[1..] && reTail.consumed == |tail.emitted|
    requires inStep(tail.refs, reTail.refs)
    ensures re.error.None? && re.values == objs && re.consumed == |we.emitted| && inStep(we.refs, re.refs)
  {
    assert objs == [objs[0]] + objs[1..];
  }

  /** Members written one after another, each by its own serializer, read back, in a
      session whose tables were in step, as the same values, using exactly the tokens
      written, and the tables end in step. */
  lemma {:induction false} RoundTripAll(
    write: Writer, read: Reader, inStep: TableInvariant, i: nat, objs: seq<Option<Obj>>,
    w: map<Obj, int>, r: seq<Option<Obj>>, rest: seq<Token>)
    requires AllMirror(write, read, inStep, i, objs)
    requires inStep(w, r)
    requires WriteAll(write, i, objs, w).status.Success?
    ensures var we := WriteAll(write, i, objs, w);
      var re := ReadAll(read, i, |objs|, we.emitted + rest, r);
      && re.error.None? && re.values == objs && re.consumed == |we.emitted| && inStep(we.refs, re.refs)
    decreases |objs|
  {
    if objs != [] {
      WriteAllCons(write, i, objs, w);
      var first := write(i, objs[0], w);
      var tail := WriteAll(write, i + 1, objs[1..], first.refs);
      MirrorStep(write, read, inStep, i, objs[0], w, r, tail.emitted + rest);
      var re1 := read(i, first.emitted + (tail.emitted + rest), r);
      RoundTripAll(write, read, inStep, i + 1, objs[1..], first.refs, re1.refs, rest);
      RoundTripCons(write, read, inStep, i, objs, w, r, rest);
    }
  }

  /** The round trip of a whole session: each member written and read by its own
      member serializer, all sharing the session's selector, external table and two
      reference tables. */
  lemma SessionRoundTrip(
    sel: SerializerSelector, externals: Option<map<Guid, Obj>>, hasCallback: bool, members: seq<Member>,
    objs: seq<Option<Obj>>, w: map<Obj, int>, r: seq<Option<Obj>>, rest: seq<Token>)
    requires |members| == |objs|
    requires SelectorConsistent(sel)
    requires Corresponds(w, r)
    requires forall k :: 0 <= k < |objs| && objs[k].Some? ==> ExternalResolves(externals, objs[k].value)
    requires WriteAll(SessionWriter(sel, externals, members), 0, objs, w).status.Success?
    ensures var we := WriteAll(SessionWriter(sel, externals, members), 0, objs, w);
      var re := ReadAll(SessionReader(sel, externals, hasCallback, members), 0, |objs|, we.emitted + rest, r);
      && re.error.None? && re.values == objs && re.consumed == |we.emitted| && Corresponds(we.refs, re.refs)
  {
    MembersMirror(sel, externals, hasCallback, members, 0, objs);
    RoundTripAll(SessionWriter(sel, externals, members), SessionReader(sel, externals, hasCallback, members),
                 Corresponds, 0, objs, w, r, rest);
  }

  /** The objects that the members from position `i` on register in the write table
      when they write `objs`, in the order they are first met, after those of `seen`:
      null values, value types, objects replaced by their Guid and members without
      reuse register nothing. */
  function FirstMet(
    sel: SerializerSelector, externals: Option<map<Guid, Obj>>, members: seq<Member>, i: nat,
    seen: seq<Obj>, objs: seq<Option<Obj>>)
    : (d: seq<Obj>)
    requires i + |objs| <= |members|
    ensures seen <= d
    ensures forall o :: o in d ==> o in seen || Some(o) in objs
    decreases |objs|
  {
    if objs == [] then seen
    else
      var m := members[i];
      if objs[0].Some? && Registers(m.v, sel, externals, m.declared, objs[0].value) && objs[0].value !in seen
      then FirstMet(sel, externals, members, i + 1, seen + [objs[0].value], objs[1..])
      else FirstMet(sel, externals, members, i + 1, seen, objs[1..])
  }

  /** The write table gives the k-th object of `d` the index k, and holds nothing else. */
  ghost predicate Indexes(w: map<Obj, int>, d: seq<Obj>)
  {
    && |w| == |d|
    && (forall k :: 0 <= k < |d| ==> d[k] in w && w[d[k]] == k)
    && (forall o :: o in w ==> o in d)
  }

  /** Registering an object not yet met gives it the next index. */
  lemma IndexesAfterRegister(w: map<Obj, int>, d: seq<Obj>, o: Obj)
    requires Indexes(w, d) && o !in d
    ensures o !in w && Indexes(w[o := |w|], d + [o])
  {
    assert w[o := |w|].Keys == w.Keys + {o};
    forall k | 0 <= k < |d| ensures d[k] != o {
    }
  }

  /** The indices a session hands out are 0, 1, 2, ... in the order objects are first
      registered: after a session that met `seen` has the members from position `i` on
      write `objs`, the k-th object of FirstMet has index k and the table holds nothing
      else. */
  lemma {:induction false} WriteAllIndices(
    sel: SerializerSelector, externals: Option<map<Guid, Obj>>, members: seq<Member>, i: nat,
    objs: seq<Option<Obj>>, w: map<Obj, int>, seen: seq<Obj>)
    requires i + |objs| <= |members|
    requires Indexes(w, seen)
    requires WriteAll(SessionWriter(sel, externals, members), i, objs, w).status.Success?
    ensures Indexes(WriteAll(SessionWriter(sel, externals, members), i, objs, w).refs,
                    FirstMet(sel, externals, members, i, seen, objs))
    decreases |objs|
  {
    if objs != [] {
      var m := members[i];
      var first := WriteSpec(m.v, sel, externals, m.declared, m.dataSerializer, objs[0], w);
      assert SessionWriter(sel, externals, members)(i, objs[0], w) == first;
      WriteKeepsTableValid(m.v, sel, externals, m.declared, m.dataSerializer, objs[0], w);
      var next := seen;
      if objs[0].Some? && Registers(m.v, sel, externals, m.declared, objs[0].value) && objs[0].value !in seen {
        IndexesAfterRegister(w, seen, objs[0].value);
        next := seen + [objs[0].value];
      }
      assert Indexes(first.refs, next);
      WriteAllIndices(sel, externals, members, i + 1, objs[1..], first.refs, next);
    }
  }

  /** The same object written twice with reuse on: one payload, then a back-reference
      to index 0. */
  lemma WriteTwiceExample(
    v: Variant, sel: SerializerSelector, externals: Option<map<Guid, Obj>>,
    declared: DeclaredType, c: Codec, b: Obj)
    requires !TakesValueTypeBranch(v, declared) && ReuseOn(v, sel)
    requires !IsExternal(externals, b) && b.runtimeType == declared.name
    ensures var m := Member(v, declared, Some(c));
      WriteAll(SessionWriter(sel, externals, [m, m]), 0, [Some(b), Some(b)], map[])
      == WriteEffect([FlagsByte(NoFlags), Int32Value(0), Payload(c, Some(b)),
                      FlagsByte(NoFlags.(isReference := true)), Int32Value(0)],
                     map[b := 0], BothCalls(c), Success)
  {
    var m := Member(v, declared, Some(c));
    var write := SessionWriter(sel, externals, [m, m]);
    var first := [FlagsByte(NoFlags), Int32Value(0), Payload(c, Some(b))];
    var second := [FlagsByte(NoFlags.(isReference := true)), Int32Value(0)];
    WriteFirstSeenLayout(v, sel, externals, declared, Some(c), b, map[]);
    WriteFirstSeenRegisters(v, sel, externals, declared, Some(c), b, map[]);
    assert write(0, Some(b), map[]) == WriteEffect(first, map[b := 0], BothCalls(c), Success);
    WriteBackReference(v, sel, externals, declared, Some(c), b, map[b := 0]);
    assert write(1, Some(b), map[b := 0]) == WriteEffect(second, map[b := 0], [], Success);
    assert [Some(b), Some(b)][1..] == [Some(b)];
    assert [Some(b)][1..] == [];
    assert WriteAll(write, 1, [Some(b)], map[b := 0]) == WriteEffect(second, map[b := 0], [], Success);
    assert first + second == [FlagsByte(NoFlags), Int32Value(0), Payload(c, Some(b)),
                              FlagsByte(NoFlags.(isReference := true)), Int32Value(0)];
  }
}
