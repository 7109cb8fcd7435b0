/** What a service answers, told from the call and the description of the method alone. */
module MethodCalls {
  import opened Wrappers
  import opened JsonValues
  import opened TypeSpecs
  import opened Validator
  import opened Conformance
  import opened ParserShape
  import opened Messages
  import opened Services

  /** The types of a method that is described as `method M(parameters) -> (returned)`. */
  function MethodOfTypes(parameters: TypeSpec, returned: TypeSpec): TypeSpec {
    Bare(Struct([Param("parameters", parameters), Param("return_value", returned)]))
  }

  // ----- The call of a declared method -----

  /** The call is for this method of this interface. */
  ghost predicate CallsMethod(entries: seq<Entry>, m: Message, entry: Entry, name: string, doc: string, p: TypeSpec, r: TypeSpec) {
    && (forall e | e in entries :: Usable(e)) && entry in entries
    && (forall e | e in entries && e.spec.name == entry.spec.name :: e == entry)
    && Member(MethodMember, name, doc, MethodOfTypes(p, r)) in entry.spec.members
    && '.' !in name
    && m.json.Object? && Get(m.json, "method") == Some(Str(entry.spec.name + "." + name))
  }

  /** The parameters of the call; without any they are an empty object. */
  function Given(m: Message): Json
    requires m.json.Object?
  {
    match Get(m.json, "parameters")
    case Some(p) => p
    case None => Object([])
  }

  function ErrorObject(name: string, key: string, text: string): Json {
    Object([Field("error", Str(name)), Field("parameters", Object([Field(key, Str(text))]))])
  }

  function Reason(dump: Json -> string, what: What): string {
    match what
    case DumpOf(d) => dump(d)
    case NameOf(n) => n
  }

  lemma FindsMethod(entries: seq<Entry>, m: Message, entry: Entry, name: string, doc: string, p: TypeSpec, r: TypeSpec)
    requires CallsMethod(entries, m, entry, name, doc, p, r)
    ensures FullName(m) == entry.spec.name + "." + name
    ensures InterfaceName(FullName(m)) == entry.spec.name && MethodName(FullName(m)) == name
    ensures FindInterface(entries, entry.spec.name) == Some(entry)
    ensures FindMember(entry.spec.members, name, MethodMember) == Some(Member(MethodMember, name, doc, MethodOfTypes(p, r)))
    ensures Parameters(m) == Given(m)
  {
    hide Get, InterfaceName, MethodName, ParsedMember;
    MethodNameSplits(entry.spec.name, name);
    var found := FindMember(entry.spec.members, name, MethodMember);
    var method_ := Member(MethodMember, name, doc, MethodOfTypes(p, r));
    assert found.Some? && found.value.name == method_.name;
    assert Usable(entry);
    var j :| 0 <= j < |entry.spec.members| && entry.spec.members[j] == method_;
    var k :| 0 <= k < |entry.spec.members| && entry.spec.members[k] == found.value;
    assert j == k;
    assert FindInterface(entries, entry.spec.name).Some?;
  }

  /** Parameters that are no value of the declared parameter type: one `InvalidParameter`. */
  lemma BadParameters(entries: seq<Entry>, dump: Json -> string, m: Message, entry: Entry, name: string, doc: string, p: TypeSpec, r: TypeSpec)
    requires CallsMethod(entries, m, entry, name, doc, p, r)
    requires Validate(entry.spec.members, Given(m), p).Reject?
    ensures Replies(entries, dump, m)
         == [ErrorObject("org.varlink.service.InvalidParameter", "parameter", Reason(dump, Validate(entry.spec.members, Given(m), p).what))]
  {
    hide Validate, FindInterface, FindMember, InterfaceName, MethodName, FullName, Parameters, Get, ParsedMember;
    FindsMethod(entries, m, entry, name, doc, p, r);
  }

  /** Good parameters, but no callback: `MethodNotImplemented`. */
  lemma NoCallback(entries: seq<Entry>, dump: Json -> string, m: Message, entry: Entry, name: string, doc: string, p: TypeSpec, r: TypeSpec)
    requires CallsMethod(entries, m, entry, name, doc, p, r)
    requires Validate(entry.spec.members, Given(m), p).Accept?
    requires name !in entry.callbacks || entry.callbacks[name] == None
    ensures Replies(entries, dump, m)
         == [ErrorObject("org.varlink.service.MethodNotImplemented", "method", entry.spec.name + "." + name)]
  {
    hide Validate, FindInterface, FindMember, InterfaceName, MethodName, FullName, Parameters, Get, ParsedMember;
    FindsMethod(entries, m, entry, name, doc, p, r);
  }

  lemma UnknownInterface(entries: seq<Entry>, dump: Json -> string, m: Message, ifname: string, name: string)
    requires (forall e | e in entries :: Usable(e) && e.spec.name != ifname) && '.' !in name
    requires m.json.Object? && Get(m.json, "method") == Some(Str(ifname + "." + name))
    ensures Replies(entries, dump, m) == [ErrorObject("org.varlink.service.InterfaceNotFound", "interface", ifname)]
  {
    hide Get, InterfaceName, MethodName;
    MethodNameSplits(ifname, name);
  }

  lemma UnknownMethod(entries: seq<Entry>, dump: Json -> string, m: Message, entry: Entry, name: string)
    requires (forall e | e in entries :: Usable(e)) && entry in entries && '.' !in name
    requires forall e | e in entries && e.spec.name == entry.spec.name :: e == entry
    requires forall k | k in entry.spec.members :: !(k.kind.MethodMember? && k.name == name)
    requires m.json.Object? && Get(m.json, "method") == Some(Str(entry.spec.name + "." + name))
    ensures Replies(entries, dump, m) == [ErrorObject("org.varlink.service.MethodNotFound", "method", entry.spec.name + "." + name)]
  {
    hide Get, InterfaceName, MethodName, ParsedMember, Validate;
    MethodNameSplits(entry.spec.name, name);
    assert FindInterface(entries, entry.spec.name) == Some(entry);
    assert FindMember(entry.spec.members, name, MethodMember) == None;
  }

  // ----- The callback -----

  /** The reply to one accepted send. */
  function ReplyTo(mode: CallMode, send: Send): Json {
    match mode
    case Oneway => Null
    case More => Object([Field("continues", Bool(send.continues)), Field("parameters", Object(send.parameters))])
    case _ => Object([Field("parameters", Object(send.parameters))])
  }

  /** What the caller is told of an exception that leaves the callback. */
  function Told(dump: Json -> string, fqmethod: string, thrown: Option<Exception>): seq<Json> {
    match thrown
    case None => []
    case Some(OutOfRange) => [ErrorObject("org.varlink.service.MethodNotFound", "method", fqmethod)]
    case Some(BadFunctionCall) => [ErrorObject("org.varlink.service.MethodNotImplemented", "method", fqmethod)]
    case Some(InvalidParameter(what)) => [ErrorObject("org.varlink.service.InvalidParameter", "parameter", Reason(dump, what))]
    case Some(VarlinkError(name, args)) => [Object([Field("error", Str(name)), Field("parameters", args)])]
    case Some(OtherException(text)) => [ErrorObject("org.varlink.service.InternalError", "what", text)]
    case Some(_) => []
  }

  /** The send is one that the reply function takes. */
  predicate Takes(ms: seq<Member>, r: TypeSpec, mode: CallMode, send: Send) {
    Validate(ms, Object(send.parameters), r).Accept? && (send.continues ==> mode.More? || mode.Oneway?)
  }

  /** Why the reply function does not take it. */
  function Refusal(ms: seq<Member>, r: TypeSpec, send: Send): Exception {
    match Validate(ms, Object(send.parameters), r)
    case Reject(what) => InvalidParameter(what)
    case TooDeep => NeverReturns
    case Accept => BadFunctionCall
  }

  lemma ToldIs(dump: Json -> string, fqmethod: string, o: Outcome)
    ensures ErrorReplies(dump, fqmethod, o) == Told(dump, fqmethod, o.thrown)
  {
  }

  lemma HandleIs(ms: seq<Member>, r: TypeSpec, mode: CallMode, send: Send)
    ensures Handle(ms, r, mode, send) == if Takes(ms, r, mode, send) then Ok(ReplyTo(mode, send)) else Err(Refusal(ms, r, send))
  {
    hide Validate;
  }

  /** The number of sends that are taken before the first that is not. */
  function TakenSends(ms: seq<Member>, r: TypeSpec, mode: CallMode, sends: seq<Send>): (n: nat)
    ensures n <= |sends| && (forall k | 0 <= k < n :: Takes(ms, r, mode, sends[k]))
    ensures n < |sends| ==> !Takes(ms, r, mode, sends[n])
  {
    if sends == [] || !Takes(ms, r, mode, sends[0]) then 0 else 1 + TakenSends(ms, r, mode, sends[1..])
  }

  lemma {:induction false} CallbackIs(ms: seq<Member>, r: TypeSpec, mode: CallMode, b: Behaviour)
    ensures var n, o := TakenSends(ms, r, mode, b.sends), RunCallback(ms, r, mode, b);
            && |o.replies| == n && (forall k | 0 <= k < n :: o.replies[k] == ReplyTo(mode, b.sends[k]))
            && o.thrown == if n < |b.sends| then Some(Refusal(ms, r, b.sends[n])) else b.thrown
    decreases |b.sends|
  {
    hide Takes, ReplyTo, Refusal, Handle;
    if b.sends != [] {
      HandleIs(ms, r, mode, b.sends[0]);
      if Takes(ms, r, mode, b.sends[0]) {
        CallbackIs(ms, r, mode, b.(sends := b.sends[1..]));
      }
    }
  }

  /**
   Good parameters and a callback: it runs, and its sends are answered one by one as long as
   each is a value of the declared return type; what stops it is told at the end.
   */
  lemma CallbackRuns(entries: seq<Entry>, dump: Json -> string, m: Message, entry: Entry, name: string, doc: string, p: TypeSpec, r: TypeSpec, b: Behaviour)
    requires CallsMethod(entries, m, entry, name, doc, p, r)
    requires Validate(entry.spec.members, Given(m), p).Accept?
    requires name in entry.callbacks && entry.callbacks[name].Some? && b == entry.callbacks[name].value(Given(m), m.mode)
    ensures var ms, rs := entry.spec.members, Replies(entries, dump, m);
            var n := TakenSends(ms, r, m.mode, b.sends);
            && n <= |rs| && (forall k | 0 <= k < n :: rs[k] == ReplyTo(m.mode, b.sends[k]))
            && rs[n..] == Told(dump, entry.spec.name + "." + name, if n < |b.sends| then Some(Refusal(ms, r, b.sends[n])) else b.thrown)
  {
    hide Validate, FindInterface, FindMember, InterfaceName, MethodName, FullName, Parameters, Get, ParsedMember, RunCallback, ErrorReplies, Told, TakenSends, ReplyTo, Refusal;
    FindsMethod(entries, m, entry, name, doc, p, r);
    var ms := entry.spec.members;
    var o := RunCallback(ms, r, m.mode, b);
    assert Replies(entries, dump, m) == o.replies + ErrorReplies(dump, entry.spec.name + "." + name, o);
    CallbackIs(ms, r, m.mode, b);
    ToldIs(dump, entry.spec.name + "." + name, o);
  }
}
