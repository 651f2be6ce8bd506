/** The lift of system-role messages into the top-level system block, over JSON values. */
module SystemLift {

  import opened GoInts

  datatype Json =
    | Null
    | Bool(truth: bool)
    | Number(literal: string)
    | Text(text: string)
    | List(items: seq<Json>)
    | Object(fields: map<string, Json>)

  const ROLE: string := "role"
  const CONTENT: string := "content"
  const SYSTEM: string := "system"
  const MESSAGES: string := "messages"

  datatype Fault =
    | BodyNotObject
    | MessagesNotList
    | MessageNotObject(at: nat)
    | RoleNotString(at: nat)
    | ContentShape(at: nat)
    | SystemShape

  datatype Result<T> = Ok(value: T) | Err(fault: Fault)

  /** Untouched asks the caller to forward the original bytes. */
  datatype Outcome = Untouched | Lifted(body: Json, moved: nat) | Failed(fault: Fault)

  /** A field, with a missing one read as null. */
  function Get(fields: map<string, Json>, key: string): Json {
    if key in fields then fields[key] else Null
  }

  // ----- One value -----

  /** The values that decode into a list of blocks: null, text, list. */
  predicate HasBlocks(j: Json) {
    j.Null? || j.Text? || j.List?
  }

  function TextBlock(text: string): Json {
    Object(map["type" := Text("text"), "text" := Text(text)])
  }

  /** The blocks a value stands for. */
  function Blocks(j: Json): seq<Json> {
    match j
    case Text(text) => [TextBlock(text)]
    case List(items) => items
    case _ => []
  }

  function NormalizeToBlocks(j: Json): (r: Option<seq<Json>>)
    ensures r.Some? <==> HasBlocks(j)
    ensures r.Some? ==> r.value == Blocks(j)
  {
    if j == Null then Some([])
    else if j.Text? then Some([TextBlock(j.text)])
    else if j.List? then Some(j.items)
    else None
  }

  /** Is this entry moved? Only a system-role entry outside index 0. */
  predicate Moves(i: nat, m: Json) {
    i > 0 && m.Object? && Get(m.fields, ROLE) == Text(SYSTEM)
  }

  /** Can this entry be interpreted? At index 0 neither role nor content is looked at. */
  predicate Readable(i: nat, m: Json) {
    && (m.Null? || m.Object?)
    && (i > 0 && m.Object? ==> Get(m.fields, ROLE).Null? || Get(m.fields, ROLE).Text?)
    && (Moves(i, m) ==> HasBlocks(Get(m.fields, CONTENT)))
  }

  /** What the code finds wrong with an entry. */
  function EntryFault(i: nat, m: Json): Fault {
    if !m.Null? && !m.Object? then MessageNotObject(i)
    else if !Moves(i, m) then RoleNotString(i)
    else ContentShape(i)
  }

  /** Decide one entry: None keeps it, Some gives the blocks to lift. */
  function LiftableBlocks(i: nat, m: Json): (r: Result<Option<seq<Json>>>)
    ensures r.Ok? <==> Readable(i, m)
    ensures r.Err? ==> r.fault == EntryFault(i, m)
    ensures r.Ok? ==> (r.value.Some? <==> Moves(i, m))
    ensures r.Ok? && r.value.Some? ==> r.value.value == Blocks(Get(m.fields, CONTENT))
  {
    if m.Object? then
      if ROLE !in m.fields || i == 0 then Ok(None)
      else
        var role := m.fields[ROLE];
        if !role.Null? && !role.Text? then Err(RoleNotString(i))
        else if role != Text(SYSTEM) then Ok(None)
        else
          var blocks := NormalizeToBlocks(Get(m.fields, CONTENT));
          if blocks.None? then Err(ContentShape(i)) else Ok(blocks)
    else if m.Null? then Ok(None)
    else Err(MessageNotObject(i))
  }

  /** The blocks an entry contributes: its content's if it moves, else none. */
  ghost function EntryBlocks(i: nat, m: Json): seq<Json> {
    if Moves(i, m) then Blocks(Get(m.fields, CONTENT)) else []
  }

  // ----- A list of entries -----

  ghost predicate AllReadable(ms: seq<Json>) {
    forall i :: 0 <= i < |ms| ==> Readable(i, ms[i])
  }

  /** The entries that stay. */
  function Kept(ms: seq<Json>): seq<Json> {
    if ms == [] then []
    else
      var n := |ms| - 1;
      Kept(ms[..n]) + if Moves(n, ms[n]) then [] else [ms[n]]
  }

  /** The blocks of the entries that move. */
  ghost function MovedBlocks(ms: seq<Json>): seq<Json> {
    if ms == [] then []
    else
      var n := |ms| - 1;
      MovedBlocks(ms[..n]) + EntryBlocks(n, ms[n])
  }

  ghost function MovedCount(ms: seq<Json>): nat {
    if ms == [] then 0
    else
      var n := |ms| - 1;
      MovedCount(ms[..n]) + if Moves(n, ms[n]) then 1 else 0
  }

  /** The body's message list; null and a missing list have no entries. */
  function Messages(body: Json): seq<Json> {
    if body.Object? && Get(body.fields, MESSAGES).List? then body.fields[MESSAGES].items else []
  }

  /** Does the body have the outer shape the lift can interpret? */
  predicate OuterShape(body: Json) {
    body.Null? || (body.Object? && (Get(body.fields, MESSAGES).Null? || Get(body.fields, MESSAGES).List?))
  }

  /** The lift: every branch of the code, in the order it decides. */
  ghost predicate IsLift(body: Json, out: Outcome) {
    var ms := Messages(body);
    if !OuterShape(body) then
      out == Failed(if body.Object? then MessagesNotList else BodyNotObject)
    else if !AllReadable(ms) then
      exists i :: 0 <= i < |ms| && AllReadable(ms[..i]) && !Readable(i, ms[i]) && out == Failed(EntryFault(i, ms[i]))
    else if MovedCount(ms) == 0 then out == Untouched
    else
      var system := Get(body.fields, SYSTEM);
      if !HasBlocks(system) then out == Failed(SystemShape)
      else out == Lifted(Object(body.fields[SYSTEM := List(Blocks(system) + MovedBlocks(ms))]
                                           [MESSAGES := List(Kept(ms))]),
                         MovedCount(ms))
  }

  /** What one more entry adds. */
  lemma OneEntry(ms: seq<Json>, i: nat)
    requires i < |ms|
    ensures Kept(ms[..i + 1]) == if Moves(i, ms[i]) then Kept(ms[..i]) else Kept(ms[..i]) + [ms[i]]
    ensures MovedBlocks(ms[..i + 1]) == MovedBlocks(ms[..i]) + EntryBlocks(i, ms[i])
    ensures MovedCount(ms[..i + 1]) == MovedCount(ms[..i]) + if Moves(i, ms[i]) then 1 else 0
  {
    assert ms[..i + 1][..i] == ms[..i] && ms[..i + 1][i] == ms[i];
  }

  lemma OneReadable(ms: seq<Json>, i: nat)
    requires i < |ms|
    ensures AllReadable(ms[..i]) && Readable(i, ms[i]) ==> AllReadable(ms[..i + 1])
  {
    assert forall k :: 0 <= k < i ==> ms[..i + 1][k] == ms[..i][k];
  }

  method LiftSystemMessages(body: Json) returns (out: Outcome)
    ensures IsLift(body, out)
  {
    if body.Null? {
      return Untouched;
    }
    if !body.Object? {
      return Failed(BodyNotObject);
    }
    if MESSAGES !in body.fields {
      return Untouched;
    }
    var raw := body.fields[MESSAGES];
    if !raw.Null? && !raw.List? {
      return Failed(MessagesNotList);
    }
    var messages := if raw.List? then raw.items else [];
    var kept: seq<Json>, lifted: seq<Json>, moved: nat := [], [], 0;
    for i := 0 to |messages|
      invariant AllReadable(messages[..i])
      invariant kept == Kept(messages[..i])
      invariant lifted == MovedBlocks(messages[..i])
      invariant moved == MovedCount(messages[..i])
    {
      OneEntry(messages, i);
      OneReadable(messages, i);
      var r := LiftableBlocks(i, messages[i]);
      if r.Err? {
        return Failed(r.fault);
      }
      match r.value
      case None => kept := kept + [messages[i]];
      case Some(blocks) => lifted, moved := lifted + blocks, moved + 1;
    }
    assert messages[..|messages|] == messages;
    if moved == 0 {
      return Untouched;
    }
    var system := NormalizeToBlocks(Get(body.fields, SYSTEM));
    if system.None? {
      return Failed(SystemShape);
    }
    return Lifted(Object(body.fields[SYSTEM := List(system.value + lifted)][MESSAGES := List(kept)]), moved);
  }

  lemma ReadableBelow(ms: seq<Json>, n: nat)
    requires n <= |ms| && AllReadable(ms[..n])
    ensures forall i :: 0 <= i < n ==> Readable(i, ms[i])
  {
    forall i | 0 <= i < n ensures Readable(i, ms[i]) {
      assert ms[..n][i] == ms[i];
    }
  }

  /** The outcome is determined by the body. */
  lemma LiftUnique(body: Json, a: Outcome, b: Outcome)
    requires IsLift(body, a) && IsLift(body, b)
    ensures a == b
  {
    var ms := Messages(body);
    if OuterShape(body) && !AllReadable(ms) {
      var i :| 0 <= i < |ms| && AllReadable(ms[..i]) && !Readable(i, ms[i]) && a == Failed(EntryFault(i, ms[i]));
      var j :| 0 <= j < |ms| && AllReadable(ms[..j]) && !Readable(j, ms[j]) && b == Failed(EntryFault(j, ms[j]));
      ReadableBelow(ms, i);
      ReadableBelow(ms, j);
    }
  }

  // ----- Order -----

  /** How many of the first i entries stay. */
  ghost function StayBefore(ms: seq<Json>, i: nat): nat
    requires i <= |ms|
  {
    if i == 0 then 0 else StayBefore(ms, i - 1) + if Moves(i - 1, ms[i - 1]) then 0 else 1
  }

  /** How many blocks the moving ones of the first i entries hold. */
  ghost function BlocksBefore(ms: seq<Json>, i: nat): nat
    requires i <= |ms|
  {
    if i == 0 then 0 else BlocksBefore(ms, i - 1) + |EntryBlocks(i - 1, ms[i - 1])|
  }

  lemma {:induction false} BeforePrefix(ms: seq<Json>, n: nat, i: nat)
    requires i <= n <= |ms|
    ensures StayBefore(ms[..n], i) == StayBefore(ms, i)
    ensures BlocksBefore(ms[..n], i) == BlocksBefore(ms, i)
  {
    if i > 0 {
      BeforePrefix(ms, n, i - 1);
    }
  }

  lemma {:induction false} KeptLength(ms: seq<Json>)
    ensures |Kept(ms)| == StayBefore(ms, |ms|) == |ms| - MovedCount(ms)
  {
    if ms != [] {
      KeptLength(ms[..|ms| - 1]);
      BeforePrefix(ms, |ms| - 1, |ms| - 1);
    }
  }

  /** An entry that stays ends up behind exactly the staying entries before it. */
  lemma {:induction false} KeptAt(ms: seq<Json>, i: nat)
    requires i < |ms| && !Moves(i, ms[i])
    ensures StayBefore(ms, i) < |Kept(ms)| && Kept(ms)[StayBefore(ms, i)] == ms[i]
  {
    var n := |ms| - 1;
    BeforePrefix(ms, n, i);
    if i < n {
      KeptAt(ms[..n], i);
    } else {
      KeptLength(ms[..n]);
    }
  }

  /** Nothing else survives. */
  lemma {:induction false} KeptOnly(ms: seq<Json>, j: nat) returns (i: nat)
    requires j < |Kept(ms)|
    ensures i < |ms| && !Moves(i, ms[i]) && StayBefore(ms, i) == j && Kept(ms)[j] == ms[i]
  {
    var n := |ms| - 1;
    if j < |Kept(ms[..n])| {
      i := KeptOnly(ms[..n], j);
    } else {
      i := n;
      KeptLength(ms[..n]);
    }
    BeforePrefix(ms, n, i);
  }

  /** Every entry's blocks stand, in one piece, behind the blocks of the entries before it. */
  lemma {:induction false} BlocksAt(ms: seq<Json>, i: nat)
    requires i < |ms|
    ensures PieceAt(MovedBlocks(ms), BlocksBefore(ms, i), EntryBlocks(i, ms[i]))
  {
    var n := |ms| - 1;
    BeforePrefix(ms, n, i);
    if i < n {
      BlocksAt(ms[..n], i);
      PieceAhead(MovedBlocks(ms[..n]), EntryBlocks(n, ms[n]), BlocksBefore(ms, i), EntryBlocks(i, ms[i]));
    } else {
      BlocksLength(ms[..n]);
      PieceBehind(MovedBlocks(ms[..n]), EntryBlocks(n, ms[n]));
    }
  }

  lemma {:induction false} BlocksLength(ms: seq<Json>)
    ensures |MovedBlocks(ms)| == BlocksBefore(ms, |ms|)
  {
    if ms != [] {
      BlocksLength(ms[..|ms| - 1]);
      BeforePrefix(ms, |ms| - 1, |ms| - 1);
    }
  }

  /** A list of exactly the entries that stay, each behind those before it. */
  ghost predicate HoldsStaying(ms: seq<Json>, kept: seq<Json>) {
    && |kept| == StayBefore(ms, |ms|)
    && forall i: nat :: i < |ms| && !Moves(i, ms[i]) ==>
         StayBefore(ms, i) < |kept| && kept[StayBefore(ms, i)] == ms[i]
  }

  /** A list of the given blocks, then every moving entry's blocks in one piece and in
      entry order, and nothing more. */
  ghost predicate HoldsBlocks(first: seq<Json>, ms: seq<Json>, all: seq<Json>) {
    && first <= all
    && |all| == |first| + BlocksBefore(ms, |ms|)
    && forall i: nat :: i < |ms| ==> PieceAt(all[|first|..], BlocksBefore(ms, i), EntryBlocks(i, ms[i]))
  }

  ghost predicate PieceAt(all: seq<Json>, from: nat, piece: seq<Json>) {
    from + |piece| <= |all| && all[from..from + |piece|] == piece
  }

  lemma StayingHeld(ms: seq<Json>)
    ensures HoldsStaying(ms, Kept(ms)) && |Kept(ms)| == |ms| - MovedCount(ms)
    ensures ms != [] ==> Kept(ms) != [] && Kept(ms)[0] == ms[0]
  {
    KeptLength(ms);
    assert StayBefore(ms, 0) == 0;
    forall i: nat | i < |ms| && !Moves(i, ms[i])
      ensures StayBefore(ms, i) < |Kept(ms)| && Kept(ms)[StayBefore(ms, i)] == ms[i]
    {
      KeptAt(ms, i);
    }
  }

  lemma PieceAhead(all: seq<Json>, more: seq<Json>, from: nat, piece: seq<Json>)
    requires PieceAt(all, from, piece)
    ensures PieceAt(all + more, from, piece)
  {
    assert (all + more)[from..from + |piece|] == all[from..from + |piece|];
  }

  lemma PieceBehind(first: seq<Json>, piece: seq<Json>)
    ensures PieceAt(first + piece, |first|, piece)
  {
  }

  lemma BlocksHeld(first: seq<Json>, ms: seq<Json>)
    ensures HoldsBlocks(first, ms, first + MovedBlocks(ms))
  {
    BlocksLength(ms);
    assert (first + MovedBlocks(ms))[|first|..] == MovedBlocks(ms);
    forall i: nat | i < |ms| ensures PieceAt(MovedBlocks(ms), BlocksBefore(ms, i), EntryBlocks(i, ms[i])) {
      BlocksAt(ms, i);
    }
  }

  lemma LiftFields(body: Json, out: Outcome)
    requires IsLift(body, out) && out.Lifted?
    ensures body.Object? && out.body.Object? && AllReadable(Messages(body)) && HasBlocks(Get(body.fields, SYSTEM))
    ensures out.body.fields.Keys == body.fields.Keys + {SYSTEM}
    ensures Messages(out.body) == Kept(Messages(body)) && out.moved == MovedCount(Messages(body)) > 0
    ensures Get(out.body.fields, SYSTEM) == List(Blocks(Get(body.fields, SYSTEM)) + MovedBlocks(Messages(body)))
    ensures forall key :: key in body.fields && key != SYSTEM && key != MESSAGES ==>
              out.body.fields[key] == body.fields[key]
  {
  }

  /** What a lift hands back: the staying entries with index 0 fixed, the old system blocks
      followed by the moved ones, a count of the entries removed, every other field as it
      was. */
  lemma LiftMeans(body: Json, out: Outcome)
    requires IsLift(body, out) && out.Lifted?
    ensures body.Object? && out.body.Object? && AllReadable(Messages(body))
    ensures HoldsStaying(Messages(body), Messages(out.body))
    ensures Messages(out.body) != [] && Messages(out.body)[0] == Messages(body)[0]
    ensures HasBlocks(Get(body.fields, SYSTEM)) && Get(out.body.fields, SYSTEM).List?
    ensures HoldsBlocks(Blocks(Get(body.fields, SYSTEM)), Messages(body), out.body.fields[SYSTEM].items)
    ensures 0 < out.moved == |Messages(body)| - |Messages(out.body)|
    ensures out.body.fields.Keys == body.fields.Keys + {SYSTEM}
    ensures forall key :: key in body.fields && key != SYSTEM && key != MESSAGES ==>
              out.body.fields[key] == body.fields[key]
  {
    LiftFields(body, out);
    StayingHeld(Messages(body));
    BlocksHeld(Blocks(Get(body.fields, SYSTEM)), Messages(body));
  }

  lemma {:induction false} SomeMoves(ms: seq<Json>)
    ensures MovedCount(ms) > 0 <==> exists i :: 0 <= i < |ms| && Moves(i, ms[i])
  {
    if ms != [] {
      var n := |ms| - 1;
      SomeMoves(ms[..n]);
      if i :| 0 <= i < |ms| && Moves(i, ms[i]) {
        assert i < n ==> ms[..n][i] == ms[i];
      }
      if i :| 0 <= i < n && Moves(i, ms[..n][i]) {
        assert Moves(i, ms[i]);
      }
    }
  }

  /** When the body cannot be lifted: an unreadable outer shape, some unreadable entry, or
      something to move beside a system value with no blocks. */
  lemma FailsExactly(body: Json, out: Outcome)
    requires IsLift(body, out)
    ensures out.Failed? <==>
      || !OuterShape(body)
      || (exists i :: 0 <= i < |Messages(body)| && !Readable(i, Messages(body)[i]))
      || (body.Object? && !HasBlocks(Get(body.fields, SYSTEM))
          && exists i :: 0 <= i < |Messages(body)| && Moves(i, Messages(body)[i]))
    ensures out.Untouched? ==> forall i :: 0 <= i < |Messages(body)| ==> !Moves(i, Messages(body)[i])
  {
    SomeMoves(Messages(body));
  }

  lemma NothingToDo(body: Json)
    requires OuterShape(body) && AllReadable(Messages(body))
    requires forall i :: 0 <= i < |Messages(body)| ==> !Moves(i, Messages(body)[i])
    ensures IsLift(body, Untouched)
  {
    NothingMoves(Messages(body));
  }

  /** Null where a body, a message list or an entry is expected is no fault: there is just
      nothing to do. */
  lemma NullIsNoFault(body: Json)
    requires body.Null? || (body.Object? && Get(body.fields, MESSAGES).Null?)
             || (body.Object? && Get(body.fields, MESSAGES).List?
                 && forall i :: 0 <= i < |Messages(body)| ==> Messages(body)[i].Null?)
    ensures IsLift(body, Untouched)
  {
    NothingToDo(body);
  }

  // ----- What the names stand for -----

  /** An entry moves exactly if it is not the first and its role is the string "system". */
  lemma MovesExactly(i: nat, m: Json)
    ensures Moves(i, m) <==> i != 0 && m.Object? && "role" in m.fields && m.fields["role"] == Text("system")
  {
  }

  /** What can be read: null, or an object that is the first, or has no role or a null or
      string role and, if that is "system", a content that stands for blocks. */
  lemma ReadableExactly(i: nat, m: Json)
    ensures Readable(i, m) <==>
              m.Null? || (m.Object? &&
                (|| i == 0 || "role" !in m.fields || m.fields["role"].Null?
                 || (m.fields["role"].Text? && m.fields["role"] != Text("system"))
                 || (m.fields["role"] == Text("system") && NormalizeToBlocks(Get(m.fields, CONTENT)).Some?)))
  {
  }

  /** What its content stands for: one text block for a string, the items of a list, nothing
      for null or no content; anything else cannot be lifted. */
  lemma BlocksExactly(m: Json)
    requires m.Object?
    ensures var blocks := NormalizeToBlocks(Get(m.fields, CONTENT));
            if "content" !in m.fields then blocks == Some([])
            else match m.fields["content"]
                 case Null => blocks == Some([])
                 case Text(t) => blocks == Some([Object(map["type" := Text("text"), "text" := Text(t)])])
                 case List(items) => blocks == Some(items)
                 case _ => blocks == None
  {
  }

  /** The fields of the body a lift reads and writes. */
  lemma FieldsExactly()
    ensures MESSAGES == "messages" && SYSTEM == "system"
  {
  }

  /** Which fault is reported: the body, then the list, then the first unreadable entry with
      what is wrong with it, and the system value only if something has to move. */
  lemma FaultExactly(body: Json, out: Outcome)
    requires IsLift(body, out) && out.Failed?
    ensures match out.fault
            case BodyNotObject => !body.Null? && !body.Object?
            case MessagesNotList =>
              body.Object? && MESSAGES in body.fields && !body.fields[MESSAGES].Null? && !body.fields[MESSAGES].List?
            case MessageNotObject(i) =>
              FirstBad(Messages(body), i) && !Messages(body)[i].Null? && !Messages(body)[i].Object?
            case RoleNotString(i) =>
              && FirstBad(Messages(body), i) && 0 < i && Messages(body)[i].Object?
              && ROLE in Messages(body)[i].fields
              && !Messages(body)[i].fields[ROLE].Null? && !Messages(body)[i].fields[ROLE].Text?
            case ContentShape(i) =>
              && FirstBad(Messages(body), i) && Moves(i, Messages(body)[i])
              && NormalizeToBlocks(Get(Messages(body)[i].fields, CONTENT)) == None
            case SystemShape =>
              && body.Object? && NormalizeToBlocks(Get(body.fields, SYSTEM)) == None
              && exists i :: 0 <= i < |Messages(body)| && Moves(i, Messages(body)[i])
  {
    var ms := Messages(body);
    SomeMoves(ms);
    if OuterShape(body) && !AllReadable(ms) {
      var i :| 0 <= i < |ms| && AllReadable(ms[..i]) && !Readable(i, ms[i]) && out == Failed(EntryFault(i, ms[i]));
      assert FirstBad(ms, i);
    }
  }

  /** Entry i is the first that cannot be read. */
  ghost predicate FirstBad(ms: seq<Json>, i: nat) {
    i < |ms| && AllReadable(ms[..i]) && !Readable(i, ms[i])
  }

  // ----- Lifting again -----

  lemma KeptStays(ms: seq<Json>)
    ensures forall j :: 0 <= j < |Kept(ms)| ==> !Moves(j, Kept(ms)[j])
    ensures AllReadable(ms) ==> AllReadable(Kept(ms))
  {
    forall j: nat | j < |Kept(ms)|
      ensures !Moves(j, Kept(ms)[j]) && (AllReadable(ms) ==> Readable(j, Kept(ms)[j]))
    {
      var i := KeptOnly(ms, j);
      assert i == 0 ==> j == 0;
    }
  }

  lemma {:induction false} NothingMoves(ms: seq<Json>)
    requires forall i :: 0 <= i < |ms| ==> !Moves(i, ms[i])
    ensures Kept(ms) == ms && MovedCount(ms) == 0 && MovedBlocks(ms) == []
  {
    if ms != [] {
      NothingMoves(ms[..|ms| - 1]);
    }
  }

  /** Applied to its own output the lift moves nothing. */
  lemma LiftTwice(body: Json, out: Outcome, again: Outcome)
    requires IsLift(body, out) && out.Lifted? && IsLift(out.body, again)
    ensures again == Untouched
  {
    KeptStays(Messages(body));
    NothingMoves(Kept(Messages(body)));
  }

  /** What a continuation adds: no entry of it is at index 0. */
  ghost function LaterKept(tail: seq<Json>): seq<Json> {
    if tail == [] then []
    else
      var n := |tail| - 1;
      LaterKept(tail[..n]) + if Moves(1, tail[n]) then [] else [tail[n]]
  }

  ghost function LaterBlocks(tail: seq<Json>): seq<Json> {
    if tail == [] then [] else LaterBlocks(tail[..|tail| - 1]) + EntryBlocks(1, tail[|tail| - 1])
  }

  lemma OneMore(ms: seq<Json>, m: Json)
    requires ms != []
    ensures Kept(ms + [m]) == Kept(ms) + if Moves(1, m) then [] else [m]
    ensures MovedBlocks(ms + [m]) == MovedBlocks(ms) + EntryBlocks(1, m)
  {
    assert (ms + [m])[..|ms|] == ms;
    assert Moves(|ms|, m) == Moves(1, m);
  }

  lemma Regroup(a: seq<Json>, b: seq<Json>, c: seq<Json>)
    ensures a + b + c == a + (b + c)
  {
  }

  lemma {:induction false} KeptBehind(head: seq<Json>, tail: seq<Json>)
    requires head != []
    ensures Kept(head + tail) == Kept(head) + LaterKept(tail)
  {
    if tail == [] {
      assert head + tail == head;
    } else {
      var n, m := |tail| - 1, tail[|tail| - 1];
      KeptBehind(head, tail[..n]);
      assert head + tail == head + tail[..n] + [m];
      OneMore(head + tail[..n], m);
      Regroup(Kept(head), LaterKept(tail[..n]), if Moves(1, m) then [] else [m]);
    }
  }

  lemma {:induction false} BlocksBehind(head: seq<Json>, tail: seq<Json>)
    requires head != []
    ensures MovedBlocks(head + tail) == MovedBlocks(head) + LaterBlocks(tail)
  {
    if tail == [] {
      assert head + tail == head;
    } else {
      var n, m := |tail| - 1, tail[|tail| - 1];
      BlocksBehind(head, tail[..n]);
      assert head + tail == head + tail[..n] + [m];
      OneMore(head + tail[..n], m);
      Regroup(MovedBlocks(head), LaterBlocks(tail[..n]), EntryBlocks(1, m));
    }
  }

  lemma KeptAgain(ms: seq<Json>)
    ensures Kept(Kept(ms)) == Kept(ms) && MovedCount(Kept(ms)) == 0 && MovedBlocks(Kept(ms)) == []
    ensures ms != [] ==> Kept(ms) != []
  {
    KeptStays(ms);
    NothingMoves(Kept(ms));
    StayingHeld(ms);
  }

  /** A conversation whose first part was already lifted, continued by more entries, ends
      as if everything had been lifted at once. */
  lemma LiftContinues(head: seq<Json>, tail: seq<Json>)
    requires head != []
    ensures Kept(Kept(head) + tail) == Kept(head + tail)
    ensures MovedBlocks(head) + MovedBlocks(Kept(head) + tail) == MovedBlocks(head + tail)
    ensures MovedCount(head) + MovedCount(Kept(head) + tail) == MovedCount(head + tail)
  {
    var kept := Kept(head);
    KeptAgain(head);
    KeptBehind(head, tail);
    KeptBehind(kept, tail);
    BlocksBehind(head, tail);
    BlocksBehind(kept, tail);
    assert [] + LaterBlocks(tail) == LaterBlocks(tail);
    KeptLength(head);
    KeptLength(head + tail);
    KeptLength(kept + tail);
  }
}
