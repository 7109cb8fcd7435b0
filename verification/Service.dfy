/**
 The service (include/varlink/service.hpp): it finds the interface and method of a call,
 checks the parameters, runs the callback and turns what happens into replies.
 */
module Services {
  import opened Wrappers
  import opened JsonValues
  import opened TypeSpecs
  import opened Validator
  import opened Conformance
  import opened Messages
  import opened ParserShape
  import Protocol

  // ----- Callbacks -----

  /** What leaves a callback. `NeverReturns` stands for a check that runs out of stack. */
  datatype Exception =
    | OutOfRange
    | BadFunctionCall
    | InvalidParameter(invalid: What)
    | VarlinkError(name: string, args: Json)
    | SystemError
    | OtherException(text: string)
    | NeverReturns

  /** One use of the reply function. */
  datatype Send = Send(parameters: seq<Field>, continues: bool)

  /** What a synchronous callback does: it sends, and then returns or throws. */
  datatype Behaviour = Behaviour(sends: seq<Send>, thrown: Option<Exception>)

  type Callback = (Json, CallMode) -> Behaviour

  /** An interface with the callbacks of its methods, some of which may be empty functions. */
  datatype Entry = Entry(spec: Interface, callbacks: map<string, Option<Callback>>)

  // ----- Replies -----

  function PlainReply(parameters: Json): Json {
    Object([Field("parameters", parameters)])
  }

  function MoreReply(parameters: Json, continues: bool): Json {
    Object([Field("continues", Bool(continues)), Field("parameters", parameters)])
  }

  function ErrorReply(name: string, parameters: Json): Json {
    Object([Field("error", Str(name)), Field("parameters", parameters)])
  }

  /** The handler given to the callback: the reply that goes out, or what it throws. */
  function Handle(ms: seq<Member>, returned: TypeSpec, mode: CallMode, send: Send): Result<Json, Exception> {
    var v := Validate(ms, Object(send.parameters), returned);
    if v.TooDeep? then Err(NeverReturns)
    else if v.Reject? then Err(InvalidParameter(v.what))
    else if mode.Oneway? then Ok(Null)
    else if mode.More? then Ok(MoreReply(Object(send.parameters), send.continues))
    else if send.continues then Err(BadFunctionCall)
    else Ok(PlainReply(Object(send.parameters)))
  }

  /** The replies sent, and the exception that leaves the callback. */
  datatype Outcome = Outcome(replies: seq<Json>, thrown: Option<Exception>)

  /** A callback does not catch what the handler throws. */
  function RunCallback(ms: seq<Member>, returned: TypeSpec, mode: CallMode, b: Behaviour): (o: Outcome)
    decreases |b.sends|
  {
    if b.sends == [] then Outcome([], b.thrown)
    else
      match Handle(ms, returned, mode, b.sends[0])
      case Err(e) => Outcome([], Some(e))
      case Ok(reply) =>
        var rest := RunCallback(ms, returned, mode, b.(sends := b.sends[1..]));
        Outcome([reply] + rest.replies, rest.thrown)
  }

  function TextOf(dump: Json -> string, what: What): string {
    match what
    case DumpOf(data) => dump(data)
    case NameOf(name) => name
  }

  /** The catch clauses: the error reply for an exception; a system error gets none. */
  function Caught(dump: Json -> string, fqmethod: string, e: Exception): seq<Json> {
    match e
    case OutOfRange => [ErrorReply("org.varlink.service.MethodNotFound", Object([Field("method", Str(fqmethod))]))]
    case BadFunctionCall => [ErrorReply("org.varlink.service.MethodNotImplemented", Object([Field("method", Str(fqmethod))]))]
    case InvalidParameter(what) =>
      [ErrorReply("org.varlink.service.InvalidParameter", Object([Field("parameter", Str(TextOf(dump, what)))]))]
    case VarlinkError(name, args) => [ErrorReply(name, args)]
    case SystemError => []
    case OtherException(text) => [ErrorReply("org.varlink.service.InternalError", Object([Field("what", Str(text))]))]
    case NeverReturns => []
  }

  /** Whether an error reply tells the caller what left the callback. */
  predicate Answered(thrown: Option<Exception>) {
    thrown.Some? && !thrown.value.SystemError? && !thrown.value.NeverReturns?
  }

  function ErrorReplies(dump: Json -> string, fqmethod: string, o: Outcome): seq<Json> {
    if o.thrown.Some? then Caught(dump, fqmethod, o.thrown.value) else []
  }

  function FindInterface(entries: seq<Entry>, name: string): (r: Option<Entry>)
    ensures r.Some? ==> r.value in entries && r.value.spec.name == name
    ensures r.None? ==> forall e | e in entries :: e.spec.name != name
  {
    if entries == [] then None
    else if entries[0].spec.name == name then Some(entries[0])
    else FindInterface(entries[1..], name)
  }

  /** The members of an interface are what the parser delivers. */
  predicate Usable(entry: Entry) {
    ParsedMembers(entry.spec.members)
  }

  /** A method has exactly two types, so both accessors are in range. */
  predicate IsMethod(method_: Member) {
    method_.kind.MethodMember? && ParsedMember(method_)
  }

  function ParameterType(method_: Member): TypeSpec
    requires IsMethod(method_)
  {
    method_.data.ty.params[0].spec
  }

  function ReturnType(method_: Member): TypeSpec
    requires IsMethod(method_)
  {
    method_.data.ty.params[1].spec
  }

  /** The body of the try block: everything from the method lookup to the callback's end. */
  function Attempt(entry: Entry, m: Message, methodname: string): Outcome
    requires Usable(entry)
  {
    var ms := entry.spec.members;
    match FindMember(ms, methodname, MethodMember)
    case None => Outcome([], Some(OutOfRange))
    case Some(method_) =>
      assert IsMethod(method_);
      var parameters, returned := ParameterType(method_), ReturnType(method_);
      var v := Validate(ms, Parameters(m), parameters);
      if v.TooDeep? then Outcome([], Some(NeverReturns))
      else if v.Reject? then Outcome([], Some(InvalidParameter(v.what)))
      else if methodname !in entry.callbacks || entry.callbacks[methodname].None? then Outcome([], Some(BadFunctionCall))
      else RunCallback(ms, returned, m.mode, entry.callbacks[methodname].value(Parameters(m), m.mode))
  }

  function FullName(m: Message): string {
    if Contains(m.json, "method") && At(m.json, "method").Str? then At(m.json, "method").s else ""
  }

  /** All replies to one call, in order. */
  function Replies(entries: seq<Entry>, dump: Json -> string, m: Message): seq<Json>
    requires forall e | e in entries :: Usable(e)
  {
    var ifname, methodname := InterfaceName(FullName(m)), MethodName(FullName(m));
    match FindInterface(entries, ifname)
    case None => [ErrorReply("org.varlink.service.InterfaceNotFound", Object([Field("interface", Str(ifname))]))]
    case Some(entry) =>
      var o := Attempt(entry, m, methodname);
      o.replies + ErrorReplies(dump, ifname + "." + methodname, o)
  }

  // ----- The class -----

  class VarlinkService {
    var interfaces: seq<Entry>
    const dump: Json -> string

    ghost predicate Valid()
      reads this
    {
      && (forall j, k | 0 <= j < k < |interfaces| :: interfaces[j].spec.name != interfaces[k].spec.name)
      && forall e | e in interfaces :: forall name | name in e.callbacks :: FindMember(e.spec.members, name, MethodMember).Some?
    }

    constructor (dump: Json -> string)
      ensures Valid() && interfaces == [] && this.dump == dump
    {
      interfaces, this.dump := [], dump;
    }

    /** Interfaces are added once, with callbacks for methods they have; otherwise nothing changes. */
    method AddInterface(spec: Interface, callbacks: map<string, Option<Callback>>) returns (added: bool)
      requires Valid()
      modifies this
      ensures Valid()
      ensures added <==> && (forall e | e in old(interfaces) :: e.spec.name != spec.name)
                         && forall name | name in callbacks :: FindMember(spec.members, name, MethodMember).Some?
      ensures interfaces == if added then old(interfaces) + [Entry(spec, callbacks)] else old(interfaces)
    {
      if FindInterface(interfaces, spec.name).Some? {
        return false;
      }
      var left := callbacks.Keys;
      while left != {}
        invariant left <= callbacks.Keys
        invariant forall name | name in callbacks.Keys - left :: FindMember(spec.members, name, MethodMember).Some?
        decreases left
      {
        var name :| name in left;
        if FindMember(spec.members, name, MethodMember).None? {
          return false;
        }
        left := left - {name};
      }
      interfaces := interfaces + [Entry(spec, callbacks)];
      added := true;
    }

    /** Sends the replies to a call one after the other; `sent` is what the reply sender got. */
    method MessageCall(m: Message) returns (sent: seq<Json>)
      requires forall e | e in interfaces :: Usable(e)
      ensures sent == Replies(interfaces, dump, m)
    {
      hide Validate, Handle, FindMember, ParsedMember;
      var ifname, methodname := InterfaceName(FullName(m)), MethodName(FullName(m));
      var entry := FindInterface(interfaces, ifname);
      if entry.None? {
        return [ErrorReply("org.varlink.service.InterfaceNotFound", Object([Field("interface", Str(ifname))]))];
      }
      var thrown;
      sent, thrown := Try(entry.value, m, methodname);
      if thrown.Some? {
        sent := sent + Caught(dump, ifname + "." + methodname, thrown.value);
      }
    }

    method Try(entry: Entry, m: Message, methodname: string) returns (sent: seq<Json>, thrown: Option<Exception>)
      requires Usable(entry)
      ensures Outcome(sent, thrown) == Attempt(entry, m, methodname)
    {
      hide Validate, Handle;
      var ms := entry.spec.members;
      var found := FindMember(ms, methodname, MethodMember);
      if found.None? {
        return [], Some(OutOfRange);
      }
      assert IsMethod(found.value);
      var v := Validate(ms, Parameters(m), ParameterType(found.value));
      if v.TooDeep? {
        return [], Some(NeverReturns);
      }
      if v.Reject? {
        return [], Some(InvalidParameter(v.what));
      }
      if methodname !in entry.callbacks || entry.callbacks[methodname].None? {
        return [], Some(BadFunctionCall);
      }
      var b := entry.callbacks[methodname].value(Parameters(m), m.mode);
      sent, thrown := Call(ms, ReturnType(found.value), m.mode, b);
    }

    /** The callback at work: each send goes through the handler until something is thrown. */
    method Call(ms: seq<Member>, returned: TypeSpec, mode: CallMode, b: Behaviour)
      returns (sent: seq<Json>, thrown: Option<Exception>)
      ensures Outcome(sent, thrown) == RunCallback(ms, returned, mode, b)
    {
      hide Handle;
      sent := [];
      ghost var whole := RunCallback(ms, returned, mode, b);
      for i := 0 to |b.sends|
        invariant var rest := RunCallback(ms, returned, mode, b.(sends := b.sends[i..]));
                  whole == Outcome(sent + rest.replies, rest.thrown)
      {
        assert b.sends[i..][1..] == b.sends[i + 1..];
        var r := Handle(ms, returned, mode, b.sends[i]);
        if r.Err? {
          return sent, Some(r.error);
        }
        sent := sent + [r.value];
      }
      thrown := b.thrown;
    }
  }

  // ----- The reply stream -----

  lemma ReplyShapes(p: Json, c: bool, name: string)
    ensures !HasError(PlainReply(p)) && !ReplyContinues(PlainReply(p)) && Get(PlainReply(p), "parameters") == Some(p)
    ensures !HasError(MoreReply(p, c)) && ReplyContinues(MoreReply(p, c)) == c && Get(MoreReply(p, c), "parameters") == Some(p)
    ensures HasError(ErrorReply(name, p)) && !ReplyContinues(ErrorReply(name, p))
  {
    GetAbsent(PlainReply(p).fields, "error");
    GetAbsent(PlainReply(p).fields, "continues");
    GetBehind(PlainReply(p).fields, 0, "parameters");
    GetAbsent(MoreReply(p, c).fields, "error");
    GetBehind(MoreReply(p, c).fields, 0, "continues");
    GetBehind(MoreReply(p, c).fields, 1, "parameters");
    GetBehind(ErrorReply(name, p).fields, 0, "error");
    GetAbsent(ErrorReply(name, p).fields, "continues");
  }

  /** A reply from the callback: nothing for a oneway call, else a value of the return type. */
  ghost predicate IsCallbackReply(ms: seq<Member>, returned: TypeSpec, mode: CallMode, r: Json) {
    && !HasError(r)
    && (ReplyContinues(r) ==> mode.More?)
    && (mode.Oneway? ==> r.Null?)
    && (!mode.Oneway? ==> Contains(r, "parameters") && Conforms(ms, At(r, "parameters"), returned, false))
  }

  lemma {:induction false} CallbackReplies(ms: seq<Member>, returned: TypeSpec, mode: CallMode, b: Behaviour)
    ensures forall r | r in RunCallback(ms, returned, mode, b).replies :: IsCallbackReply(ms, returned, mode, r)
    decreases |b.sends|
  {
    hide Validate, Conforms;
    if b.sends != [] && Handle(ms, returned, mode, b.sends[0]).Ok? {
      CallbackReplies(ms, returned, mode, b.(sends := b.sends[1..]));
      ReplyShapes(Object(b.sends[0].parameters), b.sends[0].continues, "");
    }
  }

  /** The method that a call names, if the interface and the method exist. */
  function MethodOf(entries: seq<Entry>, m: Message): Option<(seq<Member>, Member)> {
    match FindInterface(entries, InterfaceName(FullName(m)))
    case None => None
    case Some(entry) =>
      match FindMember(entry.spec.members, MethodName(FullName(m)), MethodMember)
      case None => None
      case Some(method_) => Some((entry.spec.members, method_))
  }

  /**
   Whatever the callback does: every reply but an error is a value of the method's return
   type, replies continue only in `more` mode, and an error reply is the last one.
   */
  lemma RepliesAreTyped(entries: seq<Entry>, dump: Json -> string, m: Message, k: nat)
    requires (forall e | e in entries :: Usable(e)) && k < |Replies(entries, dump, m)|
    ensures var r := Replies(entries, dump, m)[k];
            if HasError(r) then k == |Replies(entries, dump, m)| - 1 && !ReplyContinues(r)
            else
              && MethodOf(entries, m).Some?
              && var (ms, method_) := MethodOf(entries, m).value;
                 IsMethod(method_) && IsCallbackReply(ms, ReturnType(method_), m.mode, r)
  {
    hide Validate, RunCallback, Conforms, FindMember, HasError, ReplyContinues, InterfaceName, MethodName, IsCallbackReply;
    var ifname, methodname := InterfaceName(FullName(m)), MethodName(FullName(m));
    match FindInterface(entries, ifname)
    case None => ReplyShapes(Object([Field("interface", Str(ifname))]), false, "org.varlink.service.InterfaceNotFound");
    case Some(entry) =>
      var o := Attempt(entry, m, methodname);
      var errors := ErrorReplies(dump, ifname + "." + methodname, o);
      CaughtIsError(dump, ifname + "." + methodname, o);
      if k < |o.replies| {
        var r := o.replies[k];
        assert Replies(entries, dump, m)[k] == r;
        AttemptReplies(entry, m, methodname);
        CallbackReplyIsNoError(entry.spec.members, ReturnType(FindMember(entry.spec.members, methodname, MethodMember).value), m.mode, r);
      } else {
        assert Replies(entries, dump, m)[k] == errors[k - |o.replies|];
      }
  }

  lemma CallbackReplyIsNoError(ms: seq<Member>, returned: TypeSpec, mode: CallMode, r: Json)
    requires IsCallbackReply(ms, returned, mode, r)
    ensures !HasError(r)
  {
  }

  lemma CaughtIsError(dump: Json -> string, fqmethod: string, o: Outcome)
    ensures |ErrorReplies(dump, fqmethod, o)| == if Answered(o.thrown) then 1 else 0
    ensures forall r | r in ErrorReplies(dump, fqmethod, o) :: HasError(r) && !ReplyContinues(r)
  {
    hide HasError, ReplyContinues;
    if o.thrown.Some? {
      ErrorIsTerminal(o.thrown.value, dump, fqmethod);
    }
  }

  lemma ErrorIsTerminal(e: Exception, dump: Json -> string, fqmethod: string)
    ensures forall r | r in Caught(dump, fqmethod, e) :: HasError(r) && !ReplyContinues(r)
  {
    hide HasError, ReplyContinues, TextOf;
    var errors := Caught(dump, fqmethod, e);
    if errors != [] {
      var r := errors[0];
      assert r == ErrorReply(r.fields[0].value.s, r.fields[1].value);
      ReplyShapes(r.fields[1].value, false, r.fields[0].value.s);
      assert errors == [r];
    }
  }

  lemma AttemptReplies(entry: Entry, m: Message, methodname: string)
    requires Usable(entry)
    ensures var o := Attempt(entry, m, methodname);
            o.replies != [] ==>
              && FindMember(entry.spec.members, methodname, MethodMember).Some?
              && var method_ := FindMember(entry.spec.members, methodname, MethodMember).value;
                 IsMethod(method_)
                 && forall r | r in o.replies :: IsCallbackReply(entry.spec.members, ReturnType(method_), m.mode, r)
  {
    hide Validate, RunCallback, IsCallbackReply, FindMember;
    var o := Attempt(entry, m, methodname);
    if o.replies != [] {
      var method_ := FindMember(entry.spec.members, methodname, MethodMember).value;
      CallbackReplies(entry.spec.members, ReturnType(method_), m.mode, entry.callbacks[methodname].value(Parameters(m), m.mode));
    }
  }

  // ----- Terminal replies -----

  /** Replies after which the session reads the next request. */
  function Terminals(replies: seq<Json>): nat {
    if replies == [] then 0 else (if ReplyContinues(replies[0]) then 0 else 1) + Terminals(replies[1..])
  }

  lemma {:induction false} TerminalsAppend(a: seq<Json>, b: seq<Json>)
    ensures Terminals(a + b) == Terminals(a) + Terminals(b)
  {
    if a == [] {
      assert a + b == b;
    } else {
      assert (a + b)[1..] == a[1..] + b;
      TerminalsAppend(a[1..], b);
    }
  }

  /** The accepted sends: those before the first one that the handler refuses. */
  function Accepted(ms: seq<Member>, returned: TypeSpec, mode: CallMode, sends: seq<Send>): (n: nat)
    ensures n <= |sends|
    ensures n < |sends| ==> Handle(ms, returned, mode, sends[n]).Err?
  {
    if sends == [] || Handle(ms, returned, mode, sends[0]).Err? then 0 else 1 + Accepted(ms, returned, mode, sends[1..])
  }

  /** How many of the first `n` sends are final; for calls other than `more` all are. */
  function Finals(mode: CallMode, sends: seq<Send>, n: nat): nat
    requires n <= |sends|
  {
    if n == 0 then 0 else (if mode.More? && sends[0].continues then 0 else 1) + Finals(mode, sends[1..], n - 1)
  }

  /** What leaves the callback: what the handler throws at the first refused send, or its own exception. */
  function Ending(ms: seq<Member>, returned: TypeSpec, mode: CallMode, b: Behaviour): Option<Exception> {
    var n := Accepted(ms, returned, mode, b.sends);
    if n < |b.sends| then Some(Handle(ms, returned, mode, b.sends[n]).error) else b.thrown
  }

  lemma HandledReply(ms: seq<Member>, returned: TypeSpec, mode: CallMode, send: Send)
    ensures match Handle(ms, returned, mode, send)
            case Ok(reply) =>
              && ReplyContinues(reply) == (mode.More? && send.continues) && !HasError(reply)
              && (!mode.Oneway? ==> reply.Object? && Get(reply, "parameters") == Some(Object(send.parameters)))
            case Err(e) => e.InvalidParameter? || e.BadFunctionCall? || e.NeverReturns?
  {
    hide Validate;
    ReplyShapes(Object(send.parameters), send.continues, "");
  }

  /** One send of the callback. */
  lemma CallbackStep(ms: seq<Member>, returned: TypeSpec, mode: CallMode, b: Behaviour)
    requires b.sends != []
    ensures var rest := b.(sends := b.sends[1..]);
            var o, n := RunCallback(ms, returned, mode, rest), Accepted(ms, returned, mode, rest.sends);
            match Handle(ms, returned, mode, b.sends[0])
            case Err(e) =>
              && RunCallback(ms, returned, mode, b) == Outcome([], Some(e))
              && Accepted(ms, returned, mode, b.sends) == 0 && Ending(ms, returned, mode, b) == Some(e)
            case Ok(r) =>
              && RunCallback(ms, returned, mode, b) == Outcome([r] + o.replies, o.thrown)
              && Accepted(ms, returned, mode, b.sends) == 1 + n
              && Ending(ms, returned, mode, b) == Ending(ms, returned, mode, rest)
              && Finals(mode, b.sends, 1 + n) == (if mode.More? && b.sends[0].continues then 0 else 1) + Finals(mode, rest.sends, n)
  {
    hide Handle;
  }

  lemma NoSend(ms: seq<Member>, returned: TypeSpec, mode: CallMode, b: Behaviour)
    requires b.sends == []
    ensures RunCallback(ms, returned, mode, b) == Outcome([], b.thrown) && Accepted(ms, returned, mode, b.sends) == 0
    ensures Ending(ms, returned, mode, b) == b.thrown
  {
  }

  lemma TerminalsStep(r: Json, rest: seq<Json>)
    ensures Terminals([]) == 0
    ensures Terminals([r] + rest) == (if ReplyContinues(r) then 0 else 1) + Terminals(rest)
  {
    assert ([r] + rest)[1..] == rest;
  }

  /** What a run of the callback sends: one reply for each accepted send, final if the send is. */
  lemma {:induction false} CallbackTerminals(ms: seq<Member>, returned: TypeSpec, mode: CallMode, b: Behaviour)
    ensures var n, o := Accepted(ms, returned, mode, b.sends), RunCallback(ms, returned, mode, b);
            && |o.replies| == n
            && Terminals(o.replies) == Finals(mode, b.sends, n)
            && (forall k | 0 <= k < n :: ReplyContinues(o.replies[k]) == (mode.More? && b.sends[k].continues))
            && (forall k | 0 <= k < n :: !HasError(o.replies[k]))
            && (!mode.Oneway? ==> forall k | 0 <= k < n ::
                  o.replies[k].Object? && Get(o.replies[k], "parameters") == Some(Object(b.sends[k].parameters)))
            && o.thrown == Ending(ms, returned, mode, b)
    decreases |b.sends|
  {
    hide Handle, ReplyContinues, HasError, RunCallback, Accepted, Ending, Terminals, Get;
    TerminalsStep(Null, []);
    if b.sends == [] {
      NoSend(ms, returned, mode, b);
    } else {
      CallbackStep(ms, returned, mode, b);
      HandledReply(ms, returned, mode, b.sends[0]);
      if Handle(ms, returned, mode, b.sends[0]).Ok? {
        var rest := b.(sends := b.sends[1..]);
        CallbackTerminals(ms, returned, mode, rest);
        TerminalsStep(Handle(ms, returned, mode, b.sends[0]).value, RunCallback(ms, returned, mode, rest).replies);
      }
    }
  }

  /** A run of a callback: the types of its interface, its return type, and what it does. */
  datatype CallbackRun = CallbackRun(ms: seq<Member>, returned: TypeSpec, behaviour: Behaviour)

  /** The run that a call leads to, unless it is refused before. */
  function RunOf(entries: seq<Entry>, m: Message): Option<CallbackRun>
    requires forall e | e in entries :: Usable(e)
  {
    match FindInterface(entries, InterfaceName(FullName(m)))
    case None => None
    case Some(entry) =>
      var methodname := MethodName(FullName(m));
      match FindMember(entry.spec.members, methodname, MethodMember)
      case None => None
      case Some(method_) =>
        assert Usable(entry) && method_ in entry.spec.members;
        if !Validate(entry.spec.members, Parameters(m), ParameterType(method_)).Accept? then None
        else if methodname !in entry.callbacks || entry.callbacks[methodname].None? then None
        else Some(CallbackRun(entry.spec.members, ReturnType(method_), entry.callbacks[methodname].value(Parameters(m), m.mode)))
  }

  /** The check of the call's parameters does not come back. */
  predicate ParametersDiverge(entries: seq<Entry>, m: Message)
    requires forall e | e in entries :: Usable(e)
  {
    match FindInterface(entries, InterfaceName(FullName(m)))
    case None => false
    case Some(entry) =>
      match FindMember(entry.spec.members, MethodName(FullName(m)), MethodMember)
      case None => false
      case Some(method_) =>
        assert Usable(entry) && method_ in entry.spec.members;
        Validate(entry.spec.members, Parameters(m), ParameterType(method_)).TooDeep?
  }

  function FullMethodName(m: Message): string {
    InterfaceName(FullName(m)) + "." + MethodName(FullName(m))
  }

  lemma RepliesOfRun(entries: seq<Entry>, dump: Json -> string, m: Message)
    requires (forall e | e in entries :: Usable(e)) && RunOf(entries, m).Some?
    ensures var run := RunOf(entries, m).value;
            var o := RunCallback(run.ms, run.returned, m.mode, run.behaviour);
            Replies(entries, dump, m) == o.replies + ErrorReplies(dump, FullMethodName(m), o)
  {
    hide Validate, RunCallback, FindMember, FindInterface, InterfaceName, MethodName, FullName, Parameters, ParameterType, ReturnType, IsMethod, ErrorReplies, ParsedMembers;
  }

  /** A call that is refused gets exactly one error reply, or none if its check does not come back. */
  lemma RefusedCallGetsOneError(entries: seq<Entry>, dump: Json -> string, m: Message)
    requires (forall e | e in entries :: Usable(e)) && RunOf(entries, m).None?
    ensures var rs := Replies(entries, dump, m);
            |rs| == (if ParametersDiverge(entries, m) then 0 else 1) && forall r | r in rs :: HasError(r) && !ReplyContinues(r)
  {
    hide Validate, FindMember, InterfaceName, MethodName, FullName, Parameters, ParameterType, ReturnType, IsMethod, ParsedMembers, HasError, ReplyContinues;
    var ifname, methodname := InterfaceName(FullName(m)), MethodName(FullName(m));
    match FindInterface(entries, ifname)
    case None => ReplyShapes(Object([Field("interface", Str(ifname))]), false, "org.varlink.service.InterfaceNotFound");
    case Some(entry) => CaughtIsError(dump, ifname + "." + methodname, Attempt(entry, m, methodname));
  }

  /**
   A call whose callback runs gets exactly one terminal reply if and only if either one final
   send was accepted and no error reply follows, or none was accepted and one follows.
   */
  lemma OneTerminalReply(entries: seq<Entry>, dump: Json -> string, m: Message)
    requires (forall e | e in entries :: Usable(e)) && RunOf(entries, m).Some?
    ensures var run := RunOf(entries, m).value;
            var n := Accepted(run.ms, run.returned, m.mode, run.behaviour.sends);
            Terminals(Replies(entries, dump, m)) == 1
            <==> Finals(m.mode, run.behaviour.sends, n) == if Answered(Ending(run.ms, run.returned, m.mode, run.behaviour)) then 0 else 1
  {
    hide RunCallback, Accepted, Finals, Terminals, ReplyContinues, HasError, Replies, RunOf, Ending, Usable, ErrorReplies, FullMethodName;
    var run := RunOf(entries, m).value;
    var o := RunCallback(run.ms, run.returned, m.mode, run.behaviour);
    var errors := ErrorReplies(dump, FullMethodName(m), o);
    RepliesOfRun(entries, dump, m);
    CallbackTerminals(run.ms, run.returned, m.mode, run.behaviour);
    CaughtIsError(dump, FullMethodName(m), o);
    TerminalsAppend(o.replies, errors);
    TerminalsOfErrors(errors);
  }

  lemma TerminalsOfErrors(errors: seq<Json>)
    requires |errors| <= 1 && forall r | r in errors :: !ReplyContinues(r)
    ensures Terminals(errors) == |errors|
  {
    if errors != [] {
      assert errors[0] in errors && errors[1..] == [];
    }
  }

  // ----- What the session makes of it -----

  lemma {:induction false} TerminalOnlyLast(replies: seq<Json>)
    requires replies != [] && Terminals(replies) == 1 && !ReplyContinues(replies[|replies| - 1])
    ensures forall k | 0 <= k < |replies| - 1 :: ReplyContinues(replies[k])
  {
    var last := |replies| - 1;
    assert replies == replies[..last] + [replies[last]];
    TerminalsAppend(replies[..last], [replies[last]]);
    NoTerminals(replies[..last]);
    forall k | 0 <= k < last ensures ReplyContinues(replies[k]) { assert replies[..last][k] == replies[k]; }
  }

  lemma {:induction false} NoTerminals(replies: seq<Json>)
    requires Terminals(replies) == 0
    ensures forall r | r in replies :: ReplyContinues(r)
  {
    if replies != [] {
      NoTerminals(replies[1..]);
    }
  }

  /** Calls other than oneway are answered with objects only. */
  lemma RepliesAreObjects(entries: seq<Entry>, dump: Json -> string, m: Message)
    requires (forall e | e in entries :: Usable(e)) && !m.mode.Oneway?
    ensures forall r | r in Replies(entries, dump, m) :: r.Object?
  {
    hide Replies, Usable, IsMethod, IsCallbackReply;
    var rs := Replies(entries, dump, m);
    forall r | r in rs ensures r.Object? {
      var k :| 0 <= k < |rs| && rs[k] == r;
      RepliesAreTyped(entries, dump, m, k);
      if !HasError(r) {
        var (ms, method_) := MethodOf(entries, m).value;
        CallbackReplyIsObject(ms, ReturnType(method_), m.mode, r);
      }
    }
  }

  lemma CallbackReplyIsObject(ms: seq<Member>, returned: TypeSpec, mode: CallMode, r: Json)
    requires IsCallbackReply(ms, returned, mode, r) && !mode.Oneway?
    ensures r.Object?
  {
  }

  /** A reply that continues is no error, and there is one only in `more` mode. */
  lemma ContinuingReply(entries: seq<Entry>, dump: Json -> string, m: Message, k: nat)
    requires (forall e | e in entries :: Usable(e)) && k < |Replies(entries, dump, m)| && ReplyContinues(Replies(entries, dump, m)[k])
    ensures !HasError(Replies(entries, dump, m)[k]) && m.mode.More?
  {
    hide Replies, ReplyContinues, HasError, Conforms, Usable;
    RepliesAreTyped(entries, dump, m, k);
  }

  /**
   The uses of the reply function for a call are such as the session and the pairing of calls
   and replies rely on, exactly if one of them is terminal and it is the last.
   */
  lemma OneTerminalIsWellBehaved(entries: seq<Entry>, dump: Json -> string, m: Message)
    requires forall e | e in entries :: Usable(e)
    ensures var rs := Replies(entries, dump, m);
            Protocol.WellBehaved(m.mode, rs) <==> rs != [] && Terminals(rs) == 1 && !ReplyContinues(rs[|rs| - 1])
  {
    hide Replies, Terminals, ReplyContinues, HasError, Usable, Protocol.WellBehaved;
    var rs := Replies(entries, dump, m);
    if !m.mode.Oneway? {
      RepliesAreObjects(entries, dump, m);
    }
    forall k | 0 <= k < |rs| && ReplyContinues(rs[k]) ensures !HasError(rs[k]) && m.mode.More? {
      ContinuingReply(entries, dump, m, k);
    }
    WellBehavedReplies(m.mode, rs);
  }

  /** The same about any replies that continue in `more` mode only, and without an error. */
  lemma WellBehavedReplies(mode: CallMode, rs: seq<Json>)
    requires forall k | 0 <= k < |rs| && ReplyContinues(rs[k]) :: !HasError(rs[k]) && mode.More?
    requires !mode.Oneway? ==> forall r | r in rs :: r.Object?
    ensures Protocol.WellBehaved(mode, rs) <==> rs != [] && Terminals(rs) == 1 && !ReplyContinues(rs[|rs| - 1])
  {
    hide Terminals, ReplyContinues, HasError;
    if rs != [] && Terminals(rs) == 1 && !ReplyContinues(rs[|rs| - 1]) {
      TerminalOnlyLast(rs);
      if |rs| > 1 {
        assert ReplyContinues(rs[0]) && mode.More?;
      }
    }
    if Protocol.WellBehaved(mode, rs) {
      OneFinalReply(rs);
    }
  }

  lemma {:induction false} OneFinalReply(replies: seq<Json>)
    requires replies != [] && !ReplyContinues(replies[|replies| - 1])
    requires forall k | 0 <= k < |replies| - 1 :: ReplyContinues(replies[k])
    ensures Terminals(replies) == 1
  {
    hide ReplyContinues;
    if |replies| > 1 {
      OneFinalReply(replies[1..]);
    }
  }

  /** The callback's only final send is its last accepted one, or an error reply is the final one. */
  predicate GoesWell(run: CallbackRun, mode: CallMode) {
    var sends := run.behaviour.sends;
    var n := Accepted(run.ms, run.returned, mode, sends);
    if Answered(Ending(run.ms, run.returned, mode, run.behaviour)) then Finals(mode, sends, n) == 0
    else n > 0 && Finals(mode, sends, n) == 1 && !(mode.More? && sends[n - 1].continues)
  }

  /** Exactly which calls make such use of the reply function, oneway calls included. */
  lemma WellBehavedIff(entries: seq<Entry>, dump: Json -> string, m: Message)
    requires forall e | e in entries :: Usable(e)
    ensures Protocol.WellBehaved(m.mode, Replies(entries, dump, m))
       <==> match RunOf(entries, m)
            case None => !ParametersDiverge(entries, m)
            case Some(run) => GoesWell(run, m.mode)
  {
    hide RunCallback, Accepted, Finals, Terminals, ReplyContinues, HasError, Replies, RunOf, ParametersDiverge, Ending, Usable, ErrorReplies, FullMethodName;
    var rs := Replies(entries, dump, m);
    OneTerminalIsWellBehaved(entries, dump, m);
    match RunOf(entries, m)
    case None =>
      RefusedCallGetsOneError(entries, dump, m);
      TerminalsOfErrors(rs);
    case Some(run) =>
      var o := RunCallback(run.ms, run.returned, m.mode, run.behaviour);
      OneTerminalReply(entries, dump, m);
      RepliesOfRun(entries, dump, m);
      CallbackTerminals(run.ms, run.returned, m.mode, run.behaviour);
      LastReply(dump, m, o);
  }

  /** The last reply is the error reply, if there is one. */
  lemma LastReply(dump: Json -> string, m: Message, o: Outcome)
    ensures var errors := ErrorReplies(dump, FullMethodName(m), o);
            var rs := o.replies + errors;
            && (Answered(o.thrown) ==> rs != [] && !ReplyContinues(rs[|rs| - 1]))
            && (!Answered(o.thrown) ==> rs == o.replies)
  {
    hide ReplyContinues, HasError, FullMethodName, ErrorReplies;
    CaughtIsError(dump, FullMethodName(m), o);
    var errors := ErrorReplies(dump, FullMethodName(m), o);
    if Answered(o.thrown) {
      assert errors[0] in errors && (o.replies + errors)[|o.replies|] == errors[0];
    } else {
      assert errors == [];
    }
  }

  /** A call fails if it is refused, or if something that is told to the caller leaves its callback. */
  predicate Fails(entries: seq<Entry>, m: Message)
    requires forall e | e in entries :: Usable(e)
  {
    match RunOf(entries, m)
    case None => !ParametersDiverge(entries, m)
    case Some(run) => Answered(Ending(run.ms, run.returned, m.mode, run.behaviour))
  }

  /** A call gets an error reply, as its last one, exactly if it fails. */
  lemma ErrorIffFails(entries: seq<Entry>, dump: Json -> string, m: Message)
    requires forall e | e in entries :: Usable(e)
    ensures var rs := Replies(entries, dump, m);
            (rs != [] && HasError(rs[|rs| - 1])) <==> Fails(entries, m)
  {
    hide RunCallback, Accepted, ReplyContinues, HasError, Replies, RunOf, ParametersDiverge, Ending, Usable, ErrorReplies, FullMethodName;
    var rs := Replies(entries, dump, m);
    match RunOf(entries, m)
    case None => RefusedCallGetsOneError(entries, dump, m);
    case Some(run) =>
      var o := RunCallback(run.ms, run.returned, m.mode, run.behaviour);
      RepliesOfRun(entries, dump, m);
      CallbackTerminals(run.ms, run.returned, m.mode, run.behaviour);
      LastIsError(dump, m, o);
  }

  lemma LastIsError(dump: Json -> string, m: Message, o: Outcome)
    ensures var errors := ErrorReplies(dump, FullMethodName(m), o);
            var rs := o.replies + errors;
            && (Answered(o.thrown) ==> rs != [] && HasError(rs[|rs| - 1]))
            && (!Answered(o.thrown) ==> rs == o.replies)
  {
    hide ReplyContinues, HasError, FullMethodName, ErrorReplies;
    CaughtIsError(dump, FullMethodName(m), o);
    var errors := ErrorReplies(dump, FullMethodName(m), o);
    if Answered(o.thrown) {
      assert errors[0] in errors && (o.replies + errors)[|o.replies|] == errors[0];
    } else {
      assert errors == [];
    }
  }

  lemma {:induction false} ObjectsOfNulls(replies: seq<Json>)
    requires forall r | r in replies :: r.Null?
    ensures Protocol.Objects(replies) == []
  {
    if replies != [] {
      var before, last := replies[..|replies| - 1], replies[|replies| - 1];
      assert last in replies;
      ObjectsOfNulls(before);
    }
  }

  /** A oneway call puts nothing on the connection, unless it fails: then it is the error. */
  lemma OnewaySendsOnlyErrors(entries: seq<Entry>, dump: Json -> string, m: Message)
    requires (forall e | e in entries :: Usable(e)) && m.mode.Oneway?
    ensures var rs := Replies(entries, dump, m);
            if Fails(entries, m) then rs != [] && HasError(rs[|rs| - 1]) && Protocol.Objects(rs) == [rs[|rs| - 1]]
            else Protocol.Objects(rs) == []
  {
    hide Replies, Usable, Fails, ReplyContinues, Conforms;
    var rs := Replies(entries, dump, m);
    ErrorIffFails(entries, dump, m);
    forall k | 0 <= k < |rs| ensures if HasError(rs[k]) then k == |rs| - 1 else rs[k].Null? {
      RepliesAreTyped(entries, dump, m, k);
    }
    if Fails(entries, m) {
      ObjectsOfNulls(rs[..|rs| - 1]);
    } else {
      ObjectsOfNulls(rs);
    }
  }
}
