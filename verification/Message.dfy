/** Call messages and replies (include/varlink/detail/message.hpp). */
module Messages {
  import opened Wrappers
  import opened JsonValues

  datatype CallMode = Basic | Oneway | More | Upgrade

  datatype Message = Message(json: Json, mode: CallMode)

  /** `NotAMessage` and `NotAnObject` are invalid arguments; `NotABool` comes from the JSON library. */
  datatype MessageError = NotAMessage | NotAnObject | NotABool

  predicate Contains(j: Json, key: string) {
    j.Object? && Get(j, key).Some?
  }

  function At(j: Json, key: string): Json
    requires Contains(j, key)
  {
    Get(j, key).value
  }

  /** `contains(key) and [key].get<bool>()` */
  function Flag(j: Json, key: string): Result<bool, MessageError> {
    if !Contains(j, key) then Ok(false)
    else if At(j, key).Bool? then Ok(At(j, key).b)
    else Err(NotABool)
  }

  /** The constructor that checks a received JSON value. */
  function FromJson(j: Json): Result<Message, MessageError> {
    if !Contains(j, "method") || !At(j, "method").Str? || (Contains(j, "parameters") && !At(j, "parameters").Object?) then
      Err(NotAMessage)
    else
      var more :- Flag(j, "more");
      if more then Ok(Message(j, More))
      else
        var oneway :- Flag(j, "oneway");
        if oneway then Ok(Message(j, Oneway))
        else
          var upgrade :- Flag(j, "upgrade");
          Ok(Message(j, if upgrade then Upgrade else Basic))
  }

  /** The object a client sends, with its keys in the library's order. */
  function CallJson(name: string, parameters: Json, mode: CallMode): Json {
    Object(
      [Field("method", Str(name))]
      + (if mode.More? then [Field("more", Bool(true))] else [])
      + (if mode.Oneway? then [Field("oneway", Bool(true))] else [])
      + (if NumChildren(parameters) > 0 then [Field("parameters", parameters)] else [])
      + (if mode.Upgrade? then [Field("upgrade", Bool(true))] else []))
  }

  /** The constructor from a method name and parameters. */
  method NewMessage(name: string, parameters: Json, mode: CallMode) returns (r: Result<Message, MessageError>)
    ensures r == if parameters.Null? || parameters.Object? then Ok(Message(CallJson(name, parameters, mode), mode))
                 else Err(NotAnObject)
  {
    var fields := [Field("method", Str(name))];
    if !parameters.Null? && !parameters.Object? {
      return Err(NotAnObject);
    }
    if mode.More? {
      fields := fields + [Field("more", Bool(true))];
    } else if mode.Oneway? {
      fields := fields + [Field("oneway", Bool(true))];
    }
    if NumChildren(parameters) > 0 {
      fields := fields + [Field("parameters", parameters)];
    }
    if mode.Upgrade? {
      fields := fields + [Field("upgrade", Bool(true))];
    }
    assert fields == CallJson(name, parameters, mode).fields;
    r := Ok(Message(Object(fields), mode));
  }

  /** A flag is given as `b`; one that is absent is given as false. */
  predicate FlagIs(j: Json, key: string, b: bool)
    requires j.Object?
  {
    match Get(j, key)
    case Some(value) => value == Bool(b)
    case None => !b
  }

  /**
   Exactly which JSON values the server takes for a message, and with which mode: a method, an
   object for parameters if any, and flags that are bools, as far as they are looked at.
   */
  lemma ReceivedMessages(j: Json)
    ensures FromJson(j).Ok?
       <==> && j.Object?
            && Get(j, "method").Some? && Get(j, "method").value.Str?
            && (Get(j, "parameters").Some? ==> Get(j, "parameters").value.Object?)
            && (FlagIs(j, "more", true)
                || (FlagIs(j, "more", false)
                    && (FlagIs(j, "oneway", true)
                        || (FlagIs(j, "oneway", false) && (FlagIs(j, "upgrade", true) || FlagIs(j, "upgrade", false))))))
    ensures FromJson(j).Ok? ==>
              var m := FromJson(j).value;
              && m.json == j
              && m.mode == (if FlagIs(j, "more", true) then More
                            else if FlagIs(j, "oneway", true) then Oneway
                            else if FlagIs(j, "upgrade", true) then Upgrade else Basic)
              && Parameters(m) == (match Get(j, "parameters") case Some(p) => p case None => Object([]))
  {
    hide Get;
  }

  function Parameters(m: Message): Json {
    if Contains(m.json, "parameters") then At(m.json, "parameters") else Object([])
  }

  /** Looking up a key skips the fields in front of it. */
  lemma {:induction false} GetBehind(fields: seq<Field>, k: nat, key: string)
    requires k < |fields| && fields[k].key == key && forall j | 0 <= j < k :: fields[j].key != key
    ensures Get(Object(fields), key) == Some(fields[k].value)
  {
    GetFromBehind(fields, 0, k, key);
  }

  lemma {:induction false} GetFromBehind(fields: seq<Field>, i: nat, k: nat, key: string)
    requires i <= k < |fields| && fields[k].key == key && forall j | 0 <= j < k :: fields[j].key != key
    ensures GetFrom(Object(fields), key, i) == Some(fields[k].value)
    decreases k - i
  {
    if i < k {
      GetFromBehind(fields, i + 1, k, key);
    }
  }

  lemma GetAbsent(fields: seq<Field>, key: string)
    requires forall f | f in fields :: f.key != key
    ensures Get(Object(fields), key) == None
  {
  }

  lemma GetParameters(name: string, parameters: Json, mode: CallMode)
    requires NumChildren(parameters) > 0
    ensures Get(CallJson(name, parameters, mode), "parameters") == Some(parameters)
  {
    var fields := CallJson(name, parameters, mode).fields;
    GetBehind(fields, if mode.More? || mode.Oneway? then 2 else 1, "parameters");
  }

  lemma GetFlags(name: string, parameters: Json, mode: CallMode)
    ensures Flag(CallJson(name, parameters, mode), "more") == Ok(mode.More?)
    ensures Flag(CallJson(name, parameters, mode), "oneway") == Ok(mode.Oneway?)
    ensures Flag(CallJson(name, parameters, mode), "upgrade") == Ok(mode.Upgrade?)
  {
    var j := CallJson(name, parameters, mode);
    match mode {
      case More => GetBehind(j.fields, 1, "more");
      case Oneway => GetBehind(j.fields, 1, "oneway");
      case Upgrade => GetBehind(j.fields, |j.fields| - 1, "upgrade");
      case Basic =>
    }
    if !mode.More? { GetAbsent(j.fields, "more"); }
    if !mode.Oneway? { GetAbsent(j.fields, "oneway"); }
    if !mode.Upgrade? { GetAbsent(j.fields, "upgrade"); }
  }

  /** What a client builds is what the server reads: the same mode, method and parameters. */
  lemma ServerReadsTheCall(name: string, parameters: Json, mode: CallMode)
    requires parameters.Null? || parameters.Object?
    ensures var j := CallJson(name, parameters, mode);
            && FromJson(j) == Ok(Message(j, mode))
            && At(j, "method") == Str(name)
            && Parameters(Message(j, mode)) == if parameters.Null? then Object([]) else parameters
  {
    var j := CallJson(name, parameters, mode);
    GetBehind(j.fields, 0, "method");
    GetFlags(name, parameters, mode);
    if NumChildren(parameters) > 0 {
      GetParameters(name, parameters, mode);
    } else {
      GetAbsent(j.fields, "parameters");
    }
  }

  // ----- Interface and method name -----

  /** The position of the last dot. */
  function LastDot(s: string): (r: Option<nat>)
    ensures r.Some? ==> r.value < |s| && s[r.value] == '.' && '.' !in s[r.value + 1..]
    ensures r.None? ==> '.' !in s
  {
    if s == "" then None
    else if s[|s| - 1] == '.' then Some(|s| - 1)
    else
      var r := LastDot(s[..|s| - 1]);
      assert s == s[..|s| - 1] + [s[|s| - 1]];
      assert r.Some? ==> s[r.value + 1..] == s[..|s| - 1][r.value + 1..] + [s[|s| - 1]];
      r
  }

  function InterfaceName(fqmethod: string): string {
    match LastDot(fqmethod)
    case Some(k) => fqmethod[..k]
    case None => fqmethod
  }

  function MethodName(fqmethod: string): string {
    match LastDot(fqmethod)
    case Some(k) => fqmethod[k + 1..]
    case None => fqmethod
  }

  lemma {:induction false} LastDotIs(s: string, t: string)
    requires '.' !in t
    ensures LastDot(s + "." + t) == Some(|s|)
  {
    var u := s + "." + t;
    if t != "" {
      assert u[..|u| - 1] == s + "." + t[..|t| - 1];
      LastDotIs(s, t[..|t| - 1]);
    }
  }

  /** The method name is what follows the last dot; without a dot both names are the whole. */
  lemma {:induction false} MethodNameSplits(interfaceName: string, methodName: string)
    requires '.' !in methodName
    ensures InterfaceName(interfaceName + "." + methodName) == interfaceName
    ensures MethodName(interfaceName + "." + methodName) == methodName
    ensures InterfaceName(methodName) == methodName && MethodName(methodName) == methodName
  {
    LastDotIs(interfaceName, methodName);
  }

  // ----- Replies -----

  predicate HasError(reply: Json) {
    Contains(reply, "error")
  }

  /** The error code of a reply is set, which it is not for the name `no_error`. */
  predicate SetsErrorCode(reply: Json) {
    HasError(reply) && At(reply, "error") != Str("no_error")
  }

  predicate ReplyContinues(reply: Json) {
    Contains(reply, "continues") && At(reply, "continues") == Bool(true)
  }
}
