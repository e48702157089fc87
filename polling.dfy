/**
 * `KuePollingTask.handle_ready_read`: each line of the streamed reply either
 * sets the task's progress (`P<int>`) or is decoded as JSON, has every action
 * stamped with the poll's `kue_action_id`, and is emitted.
 */
module Polling {
  import opened Wrappers
  import opened PyStr

  /** What `json.loads` produces; an object keeps its members in insertion order, keys unique. */
  datatype Json =
    | JNull
    | JBool(b: bool)
    | JNumber(num: real)
    | JString(s: string)
    | JArray(items: seq<Json>)
    | JObject(members: seq<Member>)

  datatype Member = Member(key: string, value: Json)

  /** The exceptions the handler lets escape. */
  datatype PyError = KeyError | TypeError | AttributeError

  const ActionsKey: string := "actions"
  const ActionIdKey: string := "kue_action_id"

  // ---------------------------------------------------------------- dict operations

  /** The keys of a dict, in insertion order. */
  function Keys(ms: seq<Member>): seq<string> {
    seq(|ms|, k requires 0 <= k < |ms| => ms[k].key)
  }

  /** `d[key]`, None for a missing key. */
  function Lookup(ms: seq<Member>, key: string): Option<Json> {
    if ms == [] then None
    else if ms[0].key == key then Some(ms[0].value)
    else Lookup(ms[1..], key)
  }

  /** `d[key]` is missing exactly when `key` is not a key, and otherwise is the value a member pairs with it. */
  lemma {:induction false} LookupFinds(ms: seq<Member>, key: string)
    ensures Lookup(ms, key).None? <==> key !in Keys(ms)
    ensures Lookup(ms, key).Some? ==> exists k :: 0 <= k < |ms| && ms[k] == Member(key, Lookup(ms, key).value)
  {
    if ms != [] && ms[0].key != key {
      assert Keys(ms) == [ms[0].key] + Keys(ms[1..]);
      LookupFinds(ms[1..], key);
      var r := Lookup(ms[1..], key);
      if r.Some? {
        var k :| 0 <= k < |ms[1..]| && ms[1..][k] == Member(key, r.value);
        assert ms[k + 1] == Member(key, r.value);
      }
    } else if ms != [] {
      assert Keys(ms)[0] == key;
      assert ms[0] == Member(key, ms[0].value);
    }
  }

  /** `d[key] = v`: an existing key keeps its place, a new one goes last. */
  function SetMember(ms: seq<Member>, key: string, v: Json): seq<Member> {
    if ms == [] then [Member(key, v)]
    else if ms[0].key == key then [Member(key, v)] + ms[1..]
    else [ms[0]] + SetMember(ms[1..], key, v)
  }

  lemma KeysCons(m: Member, ms: seq<Member>)
    ensures Keys([m] + ms) == [m.key] + Keys(ms)
  {
  }

  /** Setting a key keeps the order of the keys, adding a new one at the end. */
  lemma {:induction false} SetMemberKeys(ms: seq<Member>, key: string, v: Json)
    ensures key in Keys(ms) ==> Keys(SetMember(ms, key, v)) == Keys(ms)
    ensures key !in Keys(ms) ==> Keys(SetMember(ms, key, v)) == Keys(ms) + [key]
  {
    if ms != [] {
      var r := SetMember(ms, key, v);
      assert ms == [ms[0]] + ms[1..];
      KeysCons(ms[0], ms[1..]);
      if ms[0].key == key {
        assert r == [Member(key, v)] + ms[1..];
        KeysCons(Member(key, v), ms[1..]);
        assert Keys(ms)[0] == key;
      } else {
        var r' := SetMember(ms[1..], key, v);
        assert r == [ms[0]] + r';
        KeysCons(ms[0], r');
        SetMemberKeys(ms[1..], key, v);
        assert key in Keys(ms) <==> key in Keys(ms[1..]);
        if key !in Keys(ms) {
          assert [ms[0].key] + (Keys(ms[1..]) + [key]) == ([ms[0].key] + Keys(ms[1..])) + [key];
        }
      }
    }
  }

  /** After `d[key] = v`, `d[key]` is `v` and every other key reads as before. */
  lemma {:induction false} SetMemberLookup(ms: seq<Member>, key: string, v: Json, other: string)
    ensures Lookup(SetMember(ms, key, v), key) == Some(v)
    ensures other != key ==> Lookup(SetMember(ms, key, v), other) == Lookup(ms, other)
  {
    if ms != [] && ms[0].key != key {
      SetMemberLookup(ms[1..], key, v, other);
      assert SetMember(ms, key, v)[1..] == SetMember(ms[1..], key, v);
    }
  }

  // ---------------------------------------------------------------- stamping

  /** `v["kue_action_id"] = id` for one value of an action: only a dict accepts it. */
  function StampValue(v: Json, id: Json): Result<Json, PyError> {
    if v.JObject? then Ok(JObject(SetMember(v.members, ActionIdKey, id))) else Err(TypeError)
  }

  /**
   * The inner loop over `action.items()`: each value is stamped in turn.
   * `polling_data["kue_action_id"]` (None when missing) is read once per item,
   * before the target, so a missing id raises only when there is an item.
   */
  function StampMembers(ms: seq<Member>, id: Option<Json>): Result<seq<Member>, PyError> {
    if ms == [] then Ok([])
    else
      match StampMembers(ms[..|ms| - 1], id)
      case Err(e) => Err(e)
      case Ok(done) =>
        var m := ms[|ms| - 1];
        if id.None? then Err(KeyError)
        else
          match StampValue(m.value, id.value)
          case Err(e) => Err(e)
          case Ok(v) => Ok(done + [Member(m.key, v)])
  }

  /** One action of the outer loop: `action.items()` needs a dict. */
  function StampAction(action: Json, id: Option<Json>): Result<Json, PyError> {
    if !action.JObject? then Err(AttributeError)
    else
      match StampMembers(action.members, id)
      case Err(e) => Err(e)
      case Ok(ms) => Ok(JObject(ms))
  }

  /** The outer loop over `enumerate(json_data["actions"])` for a list of actions. */
  function StampActions(items: seq<Json>, id: Option<Json>): Result<seq<Json>, PyError> {
    if items == [] then Ok([])
    else
      match StampActions(items[..|items| - 1], id)
      case Err(e) => Err(e)
      case Ok(done) =>
        match StampAction(items[|items| - 1], id)
        case Err(e) => Err(e)
        case Ok(a) => Ok(done + [a])
  }

  /**
   * What the JSON branch does to a decoded value: the object with every
   * action stamped, or the exception that escapes. Only a dict can be
   * indexed by "actions"; iterating a dict or a string of actions yields
   * strings, which have no `items()`, so only an empty one gets through.
   */
  function Annotated(top: Json, id: Option<Json>): Result<Json, PyError> {
    if !top.JObject? then Err(TypeError)
    else
      match Lookup(top.members, ActionsKey)
      case None => Err(KeyError)
      case Some(actions) =>
        match actions
        case JArray(items) =>
          (match StampActions(items, id)
           case Err(e) => Err(e)
           case Ok(stamped) => Ok(JObject(SetMember(top.members, ActionsKey, JArray(stamped)))))
        case JObject(ms) => if ms == [] then Ok(top) else Err(AttributeError)
        case JString(s) => if s == [] then Ok(top) else Err(AttributeError)
        case _ => Err(TypeError)
  }

  /** The values of an action are stamped exactly when each is a dict and, if there is one, the id exists. */
  lemma {:induction false} StampMembersOk(ms: seq<Member>, id: Option<Json>)
    ensures StampMembers(ms, id).Ok? <==>
      (ms == [] || id.Some?) && forall k :: 0 <= k < |ms| ==> ms[k].value.JObject?
    ensures StampMembers(ms, id).Ok? ==>
      var r := StampMembers(ms, id).value;
      |r| == |ms| && forall k :: 0 <= k < |ms| ==>
        r[k].key == ms[k].key && r[k].value == JObject(SetMember(ms[k].value.members, ActionIdKey, id.value))
  {
    if ms != [] {
      var init := ms[..|ms| - 1];
      StampMembersOk(init, id);
      assert forall k :: 0 <= k < |init| ==> init[k] == ms[k];
    }
  }

  /** The actions are stamped exactly when each is a dict whose values can all be stamped. */
  lemma {:induction false} StampActionsOk(items: seq<Json>, id: Option<Json>)
    ensures StampActions(items, id).Ok? <==>
      forall k :: 0 <= k < |items| ==> StampAction(items[k], id).Ok?
    ensures StampActions(items, id).Ok? ==>
      var r := StampActions(items, id).value;
      |r| == |items| && forall k :: 0 <= k < |items| ==> r[k] == StampAction(items[k], id).value
  {
    if items != [] {
      var init := items[..|items| - 1];
      StampActionsOk(init, id);
      assert forall k :: 0 <= k < |init| ==> init[k] == items[k];
    }
  }

  /**
   * A stamped action keeps its keys in order, and every value becomes the
   * same dict with "kue_action_id" set to the id and nothing else changed.
   */
  lemma StampedAction(action: Json, id: Option<Json>, k: nat, key: string)
    requires StampAction(action, id).Ok? && k < |action.members|
    ensures var r := StampAction(action, id).value;
      r.JObject? && Keys(r.members) == Keys(action.members) &&
      var v := action.members[k].value;
      var w := r.members[k].value;
      v.JObject? && w.JObject? &&
      Lookup(w.members, ActionIdKey) == id &&
      (key != ActionIdKey ==> Lookup(w.members, key) == Lookup(v.members, key))
  {
    StampMembersOk(action.members, id);
    var r := StampAction(action, id).value;
    var v := action.members[k].value;
    SetMemberLookup(v.members, ActionIdKey, id.value, key);
  }

  /**
   * A missing "actions" key, or a list of actions whose first entry is not a
   * dict, is an exception, not a decode failure.
   */
  lemma AnnotatedErrors(top: Json, id: Option<Json>)
    requires top.JObject?
    ensures ActionsKey !in Keys(top.members) ==> Annotated(top, id) == Err(KeyError)
    ensures var a := Lookup(top.members, ActionsKey);
      a.Some? && a.value.JArray? && |a.value.items| > 0 && !a.value.items[0].JObject? ==>
        Annotated(top, id) == Err(AttributeError)
  {
    LookupFinds(top.members, ActionsKey);
    var a := Lookup(top.members, ActionsKey);
    if a.Some? && a.value.JArray? && |a.value.items| > 0 && !a.value.items[0].JObject? {
      var items := a.value.items;
      StampActionsPrefixErr(items, id, 1);
    }
  }

  /** Once an action raises, the outer loop ends with that exception. */
  lemma {:induction false} StampActionsPrefixErr(items: seq<Json>, id: Option<Json>, j: nat)
    requires 0 < j <= |items| && StampActions(items[..j], id).Err?
    ensures StampActions(items, id) == StampActions(items[..j], id)
    decreases |items| - j
  {
    if j < |items| {
      assert items[..j + 1][..j] == items[..j];
      StampActionsPrefixErr(items, id, j + 1);
    } else {
      assert items[..j] == items;
    }
  }

  lemma {:induction false} StampMembersPrefixErr(ms: seq<Member>, id: Option<Json>, j: nat)
    requires 0 < j <= |ms| && StampMembers(ms[..j], id).Err?
    ensures StampMembers(ms, id) == StampMembers(ms[..j], id)
    decreases |ms| - j
  {
    if j < |ms| {
      assert ms[..j + 1][..j] == ms[..j];
      StampMembersPrefixErr(ms, id, j + 1);
    } else {
      assert ms[..j] == ms;
    }
  }

  /**
   * On success the object keeps its keys and every member but "actions";
   * when "actions" is not a list (an empty dict or an empty string) the
   * object is emitted as it was decoded.
   */
  lemma AnnotatedKeeps(top: Json, id: Option<Json>, key: string)
    requires Annotated(top, id).Ok?
    ensures var r := Annotated(top, id).value;
      top.JObject? && r.JObject? && Keys(r.members) == Keys(top.members) &&
      (key != ActionsKey ==> Lookup(r.members, key) == Lookup(top.members, key))
    ensures top.JObject? && Lookup(top.members, ActionsKey).Some?
    ensures !Lookup(top.members, ActionsKey).value.JArray? ==> Annotated(top, id).value == top
  {
    LookupFinds(top.members, ActionsKey);
    var a := Lookup(top.members, ActionsKey);
    if a.value.JArray? {
      SetMemberKeys(top.members, ActionsKey, JArray(StampActions(a.value.items, id).value));
      var stamped := StampActions(a.value.items, id).value;
      SetMemberLookup(top.members, ActionsKey, JArray(stamped), key);
    }
  }

  /**
   * On success with a list of actions, "actions" of the emitted object is
   * the stamped list: as many actions as were decoded, each a dict with the
   * same keys, and every value of every action a dict whose
   * "kue_action_id" is the poll's id.
   */
  lemma AnnotatedStamps(top: Json, id: Option<Json>, items: seq<Json>)
    requires Annotated(top, id).Ok?
    requires top.JObject? && Lookup(top.members, ActionsKey) == Some(JArray(items))
    ensures StampActions(items, id).Ok?
    ensures var r := Annotated(top, id).value;
      r.JObject? && Lookup(r.members, ActionsKey) == Some(JArray(StampActions(items, id).value))
    ensures var stamped := StampActions(items, id).value;
      |stamped| == |items| &&
      forall k :: 0 <= k < |items| ==>
        items[k].JObject? && stamped[k].JObject? && Keys(stamped[k].members) == Keys(items[k].members) &&
        forall j :: 0 <= j < |items[k].members| ==>
          stamped[k].members[j].value.JObject? && Lookup(stamped[k].members[j].value.members, ActionIdKey) == id
  {
    var stamped := StampActions(items, id).value;
    SetMemberLookup(top.members, ActionsKey, JArray(stamped), ActionsKey);
    StampActionsOk(items, id);
    forall k | 0 <= k < |items|
      ensures items[k].JObject? && stamped[k].JObject? && Keys(stamped[k].members) == Keys(items[k].members) &&
        forall j :: 0 <= j < |items[k].members| ==>
          stamped[k].members[j].value.JObject? && Lookup(stamped[k].members[j].value.members, ActionIdKey) == id
    {
      assert StampAction(items[k], id).Ok?;
      StampMembersOk(items[k].members, id);
      assert Keys(stamped[k].members) == Keys(items[k].members);
      forall j | 0 <= j < |items[k].members|
        ensures stamped[k].members[j].value.JObject? && Lookup(stamped[k].members[j].value.members, ActionIdKey) == id
      {
        StampedAction(items[k], id, j, ActionIdKey);
      }
    }
  }

  /** One more action of the outer loop, once the earlier ones are stamped. */
  lemma StampActionsStep(items: seq<Json>, id: Option<Json>, i: nat, done: seq<Json>)
    requires i < |items| && StampActions(items[..i], id) == Ok(done)
    ensures StampActions(items[..i + 1], id) ==
      match StampAction(items[i], id)
      case Err(e) => Err(e)
      case Ok(a) => Ok(done + [a])
  {
    assert items[..i + 1][..i] == items[..i];
  }

  /** One more value of the inner loop, once the earlier ones are stamped. */
  lemma StampMembersStep(ms: seq<Member>, id: Option<Json>, j: nat, out: seq<Member>)
    requires j < |ms| && StampMembers(ms[..j], id) == Ok(out)
    ensures StampMembers(ms[..j + 1], id) ==
      if id.None? then Err(KeyError)
      else
        match StampValue(ms[j].value, id.value)
        case Err(e) => Err(e)
        case Ok(v) => Ok(out + [Member(ms[j].key, v)])
  {
    assert ms[..j + 1][..j] == ms[..j];
  }

  /** The nested loops of the JSON branch, stamping a list of actions value by value. */
  method StampActionIds(items: seq<Json>, id: Option<Json>) returns (r: Result<seq<Json>, PyError>)
    ensures r == StampActions(items, id)
  {
    var done: seq<Json> := [];
    for i := 0 to |items|
      invariant StampActions(items[..i], id) == Ok(done)
    {
      StampActionsStep(items, id, i, done);
      var action := items[i];
      if !action.JObject? {
        StampActionsPrefixErr(items, id, i + 1);
        return Err(AttributeError);
      }
      var ms := action.members;
      var out: seq<Member> := [];
      for j := 0 to |ms|
        invariant StampMembers(ms[..j], id) == Ok(out)
      {
        StampMembersStep(ms, id, j, out);
        var e: PyError;
        if id.None? {
          e := KeyError;
        } else if !ms[j].value.JObject? {
          e := TypeError;
        } else {
          out := out + [Member(ms[j].key, JObject(SetMember(ms[j].value.members, ActionIdKey, id.value)))];
          continue;
        }
        StampMembersPrefixErr(ms, id, j + 1);
        StampActionsPrefixErr(items, id, i + 1);
        return Err(e);
      }
      assert ms[..|ms|] == ms;
      done := done + [JObject(out)];
    }
    assert items[..|items|] == items;
    return Ok(done);
  }

  // ---------------------------------------------------------------- lines

  /** What one line of the reply does. */
  datatype LineAction = SetProgress(value: int) | Emit(obj: Json) | Drop | Raise(error: PyError)

  /** The JSON branch: an undecodable line is dropped, a decoded one stamped and emitted, or it raises. */
  function JsonBranch(text: string, decode: string -> Option<Json>, id: Option<Json>): LineAction {
    match decode(text)
    case None => Drop
    case Some(top) =>
      match Annotated(top, id)
      case Err(e) => Raise(e)
      case Ok(obj) => Emit(obj)
  }

  /**
   * One line of `handle_ready_read`, already decoded from UTF-8: stripped,
   * then a progress update when it is "P" followed by an integer, and
   * otherwise the JSON branch. `decode` stands for `json.loads`, None being
   * a `JSONDecodeError`.
   */
  function Classify(raw: string, decode: string -> Option<Json>, id: Option<Json>): LineAction {
    var line := Strip(raw);
    if StartsWith(line, "P") && ParseInt(line[1..]).Some? then SetProgress(ParseInt(line[1..]).value)
    else JsonBranch(line, decode, id)
  }

  /** A progress line sets progress to its number and never reaches the JSON decoder. */
  lemma ProgressLine(raw: string, decode: string -> Option<Json>, other: string -> Option<Json>, id: Option<Json>, n: int)
    requires StartsWith(Strip(raw), "P") && ParseInt(Strip(raw)[1..]) == Some(n)
    ensures Classify(raw, decode, id) == SetProgress(n) == Classify(raw, other, id)
  {
  }

  /** A line that starts with "P" without an integer after it goes to the JSON branch like any other. */
  lemma BadProgressFallsThrough(raw: string, decode: string -> Option<Json>, id: Option<Json>)
    requires StartsWith(Strip(raw), "P") && ParseInt(Strip(raw)[1..]).None?
    ensures Classify(raw, decode, id) == JsonBranch(Strip(raw), decode, id)
  {
  }

  /** The outcome of reading some lines: progress, emissions in order, lines read, and any escaping exception. */
  datatype ReadOutcome = ReadOutcome(progress: int, emitted: seq<Json>, consumed: nat, raised: Option<PyError>)

  /** Applying one line's action to the outcome so far. */
  function Apply(o: ReadOutcome, a: LineAction): ReadOutcome {
    match a
    case SetProgress(n) => o.(progress := n, consumed := o.consumed + 1)
    case Emit(obj) => o.(emitted := o.emitted + [obj], consumed := o.consumed + 1)
    case Drop => o.(consumed := o.consumed + 1)
    case Raise(e) => o.(consumed := o.consumed + 1, raised := Some(e))
  }

  /** What each line does, in arrival order. */
  function Actions(lines: seq<string>, decode: string -> Option<Json>, id: Option<Json>): seq<LineAction> {
    seq(|lines|, k requires 0 <= k < |lines| => Classify(lines[k], decode, id))
  }

  /** The loop over line actions, from progress `progress`, stopping at the first exception. */
  function Run(acts: seq<LineAction>, progress: int): (o: ReadOutcome)
    ensures o.consumed <= |acts|
  {
    if acts == [] then ReadOutcome(progress, [], 0, None)
    else
      var o := Run(acts[..|acts| - 1], progress);
      if o.raised.Some? then o else Apply(o, acts[|acts| - 1])
  }

  /** `while reply.bytesAvailable()` over `lines`. */
  function ReadLines(lines: seq<string>, decode: string -> Option<Json>, id: Option<Json>, progress: int): ReadOutcome {
    Run(Actions(lines, decode, id), progress)
  }

  /** All actions are applied exactly when none of them raises. */
  lemma {:induction false} RunAll(acts: seq<LineAction>, progress: int)
    ensures var o := Run(acts, progress);
      o.raised.None? <==> o.consumed == |acts| && forall k :: 0 <= k < |acts| ==> !acts[k].Raise?
  {
    if acts != [] {
      var init := acts[..|acts| - 1];
      RunAll(init, progress);
      assert forall k :: 0 <= k < |init| ==> init[k] == acts[k];
    }
  }

  /** The emitted objects of some actions. */
  function Emissions(acts: seq<LineAction>): seq<Json> {
    if acts == [] then []
    else
      var a := acts[|acts| - 1];
      Emissions(acts[..|acts| - 1]) + (if a.Emit? then [a.obj] else [])
  }

  /** Progress after some actions: the last progress update's value, or the starting one. */
  function LastProgress(acts: seq<LineAction>, progress: int): int {
    if acts == [] then progress
    else
      var a := acts[|acts| - 1];
      if a.SetProgress? then a.value else LastProgress(acts[..|acts| - 1], progress)
  }

  /**
   * The actions are applied in order up to and including the first that
   * raises: each decoded object is emitted once, in order, and progress ends
   * at the last progress update applied; nothing after the exception is read.
   */
  lemma {:induction false} RunInOrder(acts: seq<LineAction>, progress: int)
    ensures var o := Run(acts, progress);
      var read := acts[..o.consumed];
      o.emitted == Emissions(read) &&
      o.progress == LastProgress(read, progress) &&
      (forall k :: 0 <= k < |read| - 1 ==> !read[k].Raise?) &&
      (o.raised.None? ==> forall k :: 0 <= k < |read| ==> !read[k].Raise?) &&
      (o.raised.Some? ==> o.consumed > 0 && read[|read| - 1] == Raise(o.raised.value))
  {
    if acts != [] {
      var init := acts[..|acts| - 1];
      RunInOrder(init, progress);
      var o := Run(init, progress);
      assert init[..o.consumed] == acts[..o.consumed];
      if o.raised.None? {
        RunAll(init, progress);
        assert init[..o.consumed] == init;
        assert forall k :: 0 <= k < |init| ==> init[k] == acts[k];
        RunInOrderLast(acts, progress);
        assert acts[..|acts|] == acts;
      } else {
        assert Run(acts, progress) == o;
      }
    }
  }

  /** The step of `RunInOrder` where the last action is applied. */
  lemma RunInOrderLast(acts: seq<LineAction>, progress: int)
    requires acts != []
    requires var o := Run(acts[..|acts| - 1], progress);
      o.raised.None? && o.consumed == |acts| - 1 &&
      o.emitted == Emissions(acts[..|acts| - 1]) &&
      o.progress == LastProgress(acts[..|acts| - 1], progress) &&
      forall k :: 0 <= k < |acts| - 1 ==> !acts[k].Raise?
    ensures var o := Run(acts, progress);
      o.consumed == |acts| &&
      o.emitted == Emissions(acts) &&
      o.progress == LastProgress(acts, progress) &&
      (o.raised.None? <==> !acts[|acts| - 1].Raise?) &&
      (o.raised.Some? ==> acts[|acts| - 1] == Raise(o.raised.value))
  {
  }

  /** One more action, applied when nothing has raised yet. */
  lemma RunSnoc(acts: seq<LineAction>, a: LineAction, progress: int)
    requires Run(acts, progress).raised.None?
    ensures Run(acts + [a], progress) == Apply(Run(acts, progress), a)
  {
    assert (acts + [a])[..|acts|] == acts;
  }

  /** Reading line `k` applies its action to the outcome of the lines before it. */
  lemma LoopStep(lines: seq<string>, decode: string -> Option<Json>, id: Option<Json>, progress: int, k: nat, a: LineAction)
    requires k < |lines| && a == Classify(lines[k], decode, id)
    requires Run(Actions(lines, decode, id)[..k], progress).raised.None?
    ensures Actions(lines, decode, id)[..k + 1] == Actions(lines, decode, id)[..k] + [a]
    ensures Run(Actions(lines, decode, id)[..k + 1], progress) == Apply(Run(Actions(lines, decode, id)[..k], progress), a)
  {
    var acts := Actions(lines, decode, id);
    SliceSnoc(acts, k);
    RunSnoc(acts[..k], a, progress);
  }

  lemma SliceSnoc<T>(s: seq<T>, k: nat)
    requires k < |s|
    ensures s[..k + 1] == s[..k] + [s[k]]
  {
  }

  /** Once an action raises, the outcome of the actions applied so far is final. */
  lemma {:induction false} RaisedStops(acts: seq<LineAction>, progress: int, j: nat)
    requires 0 < j <= |acts| && Run(acts[..j], progress).raised.Some?
    ensures Run(acts, progress) == Run(acts[..j], progress)
    decreases |acts| - j
  {
    if j < |acts| {
      assert acts[..j + 1][..j] == acts[..j];
      RaisedStops(acts, progress, j + 1);
    } else {
      assert acts[..j] == acts;
    }
  }

  /**
   * Reading lines emits exactly the decoded objects of the lines up to the
   * first exception, sets progress to the last progress line among them,
   * and reads every line when none raises.
   */
  lemma ReadLinesInOrder(lines: seq<string>, decode: string -> Option<Json>, id: Option<Json>, progress: int)
    ensures var o := ReadLines(lines, decode, id, progress);
      var acts := Actions(lines, decode, id);
      o.emitted == Emissions(acts[..o.consumed]) &&
      o.progress == LastProgress(acts[..o.consumed], progress) &&
      (o.raised.None? <==> o.consumed == |lines| && forall k :: 0 <= k < |lines| ==> !acts[k].Raise?) &&
      (o.raised.Some? ==> 0 < o.consumed && acts[o.consumed - 1] == Raise(o.raised.value))
  {
    var acts := Actions(lines, decode, id);
    RunInOrder(acts, progress);
    RunAll(acts, progress);
  }

  // ---------------------------------------------------------------- the task

  class KuePollingTask {
    /** `polling_data["kue_action_id"]`, None when the poll carries none. */
    const kueActionId: Option<Json>
    var progress: int
    /** Objects emitted on `streamingActionReceived`, in order. */
    var emitted: seq<Json>

    /** `KuePollingTask(polling_data)`: progress starts at 0, nothing emitted. */
    constructor (kueActionId: Option<Json>)
      ensures this.kueActionId == kueActionId && progress == 0 && emitted == []
    {
      this.kueActionId := kueActionId;
      progress := 0;
      emitted := [];
    }

    /**
     * `handle_ready_read(reply)` over the lines available, with `decode` for
     * `json.loads`: returns how many lines it read and the exception that
     * escaped, if any.
     */
    method HandleReadyRead(lines: seq<string>, decode: string -> Option<Json>) returns (consumed: nat, raised: Option<PyError>)
      modifies this
      ensures var o := ReadLines(lines, decode, kueActionId, old(progress));
        consumed == o.consumed && raised == o.raised &&
        progress == o.progress && emitted == old(emitted) + o.emitted
    {
      consumed := 0;
      raised := None;
      ghost var acts := Actions(lines, decode, kueActionId);
      ghost var start := progress;
      ghost var before := emitted;
      ghost var done: seq<LineAction> := [];
      while consumed < |lines|
        invariant consumed <= |lines| && done == acts[..consumed]
        invariant var o := Run(done, start);
          o.raised.None? && o.consumed == consumed && o.progress == progress && emitted == before + o.emitted
      {
        var a := HandleLine(lines[consumed], decode);
        LoopStep(lines, decode, kueActionId, start, consumed, a);
        done := done + [a];
        consumed := consumed + 1;
        if a.Raise? {
          raised := Some(a.error);
          RaisedStops(acts, start, consumed);
          return;
        }
        progress := if a.SetProgress? then a.value else progress;
        emitted := emitted + if a.Emit? then [a.obj] else [];
      }
      assert acts[..consumed] == acts;
    }

    /** The body of the loop for one line: the progress branch, else `json.loads` and the stamping loops. */
    method HandleLine(raw: string, decode: string -> Option<Json>) returns (a: LineAction)
      ensures a == Classify(raw, decode, kueActionId)
    {
      var line := Strip(raw);
      if StartsWith(line, "P") {
        var n := ParseInt(line[1..]);
        if n.Some? {
          return SetProgress(n.value);
        }
      }
      var top := decode(line);
      if top.None? {
        return Drop;
      }
      var stamped := Annotate(top.value);
      match stamped {
        case Err(e) => return Raise(e);
        case Ok(obj) => return Emit(obj);
      }
    }

    /** The JSON branch for one decoded value: `json_data["actions"]` and the nested loops. */
    method Annotate(top: Json) returns (r: Result<Json, PyError>)
      ensures r == Annotated(top, kueActionId)
    {
      if !top.JObject? {
        return Err(TypeError);
      }
      var actions := Lookup(top.members, ActionsKey);
      if actions.None? {
        return Err(KeyError);
      }
      match actions.value
      case JArray(items) =>
        var stamped := StampActionIds(items, kueActionId);
        match stamped {
          case Err(e) => return Err(e);
          case Ok(s) => return Ok(JObject(SetMember(top.members, ActionsKey, JArray(s))));
        }
      case JObject(ms) =>
        return if ms == [] then Ok(top) else Err(AttributeError);
      case JString(s) =>
        return if s == [] then Ok(top) else Err(AttributeError);
      case _ =>
        return Err(TypeError);
    }
  }
}
