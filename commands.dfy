/**
 * The bot command router (src/lib/server/bots/utils/command-router.ts): commands are
 * registered by name with an optional permission list, a message is parsed into a
 * command name and its arguments and checked against the user's permissions, and a
 * parsed command is dispatched to its handler or to the fallback handler.
 */
module Commands {
  import opened Common
  import opened JsText

  /** A handler function; handlers run outside this model and are named by an id. */
  type HandlerId = nat

  type Permissions = seq<string>

  /** A registered command: its handler and, optionally, the permissions that admit it. */
  datatype Registration = Registration(handler: HandlerId, permissions: Option<Permissions>)

  /** `Command`: whether to fall back, the command name and its arguments. */
  datatype Command = Command(fallback: bool, cmd: string, args: string)

  /** What `run` does: call a handler, or answer `{ignored: true}`. */
  datatype Dispatch = Call(handler: HandlerId) | Ignored

  /** The message with one leading "/ " or "/" removed, after trimming. */
  function StripSlash(msg: string): (r: string)
    ensures Trim(msg) == r
      || (IsPrefix("/ ", Trim(msg)) && Trim(msg) == "/ " + r)
      || (IsPrefix("/", Trim(msg)) && !IsPrefix("/ ", Trim(msg)) && Trim(msg) == "/" + r)
    ensures Trim(msg) == r ==> !IsPrefix("/", Trim(msg))
  {
    var m := Trim(msg);
    if IsPrefix("/ ", m) then m[2..]
    else if IsPrefix("/", m) then m[1..]
    else m
  }

  /** The command name: the text before the first space, or all of it. */
  function CommandName(m: string): string {
    var k := IndexOf(m, ' ');
    if k >= 0 then m[..k] else m
  }

  /** The arguments: the trimmed text after the first space, or "" without one. */
  function Arguments(m: string): string {
    var k := IndexOf(m, ' ');
    if k >= 0 then Trim(m[k + 1..]) else ""
  }

  /** The command name has no space, and the message is the name, a space and the rest. */
  lemma CommandSplit(m: string)
    ensures ' ' !in CommandName(m)
    ensures ' ' in m ==> exists rest :: m == CommandName(m) + " " + rest && Arguments(m) == Trim(rest)
    ensures ' ' !in m ==> CommandName(m) == m && Arguments(m) == ""
  {
    var k := IndexOf(m, ' ');
    if k >= 0 {
      assert m == m[..k] + " " + m[k + 1..];
    }
  }

  /** Text with no white space at all. */
  predicate Word(name: string) {
    name != [] && forall k :: 0 <= k < |name| ==> !IsJsSpace(name[k])
  }

  /** The first space after a word is the one that follows it. */
  lemma {:induction false} SpaceAfterWord(name: string, rest: string)
    requires ' ' !in name
    ensures IndexOf(name + " " + rest, ' ') == |name|
  {
    if name != [] {
      SpaceAfterWord(name[1..], rest);
      assert (name + " " + rest)[1..] == name[1..] + " " + rest;
    }
  }

  /** "/" before a word is stripped, and nothing else is. */
  lemma SlashBeforeWord(name: string, rest: string)
    requires Word(name)
    requires Trim("/" + name + rest) == "/" + name + rest
    ensures StripSlash("/" + name + rest) == name + rest
  {
    var m := "/" + name + rest;
    assert m[1] == name[0];
    assert m[1..] == name + rest;
  }

  /** A word, a space and the rest split into the word and the trimmed rest. */
  lemma SplitAfterWord(name: string, rest: string)
    requires Word(name)
    ensures CommandName(name + " " + rest) == name
    ensures Arguments(name + " " + rest) == Trim(rest)
  {
    var m := name + " " + rest;
    assert ' ' !in name by {
      forall k | 0 <= k < |name| ensures name[k] != ' ' { }
    }
    SpaceAfterWord(name, rest);
    assert m[..|name|] == name;
    assert m[|name| + 1..] == rest;
  }

  /** Writing "/" + name + " " + arguments and parsing it gives the name and arguments back. */
  lemma MessageRoundTrip(name: string, args: string)
    requires Word(name) && args != [] && Trim(args) == args
    ensures CommandName(StripSlash("/" + name + " " + args)) == name
    ensures Arguments(StripSlash("/" + name + " " + args)) == args
  {
    var msg := "/" + name + " " + args;
    assert msg[|msg| - 1] == Trim(args)[|Trim(args)| - 1];
    TrimmedAlready(msg);
    assert msg == "/" + name + (" " + args);
    SlashBeforeWord(name, " " + args);
    assert name + (" " + args) == name + " " + args;
    SplitAfterWord(name, args);
  }

  /** "/" + name alone parses to the name with no arguments. */
  lemma BareCommandRoundTrip(name: string)
    requires Word(name)
    ensures CommandName(StripSlash("/" + name)) == name
    ensures Arguments(StripSlash("/" + name)) == ""
  {
    TrimmedAlready("/" + name);
    assert "/" + name == "/" + name + "";
    SlashBeforeWord(name, "");
    assert name + "" == name;
    assert ' ' !in name by {
      forall k | 0 <= k < |name| ensures name[k] != ' ' { }
    }
  }

  /** The permission gate: SUPER, no permission list, or a permission the list names. */
  predicate Permitted(user: Permissions, required: Option<Permissions>) {
    || "SUPER" in user
    || required.None?
    || exists p :: p in user && p in required.value
  }

  /** An empty permission list admits only SUPER users. */
  lemma EmptyListOnlySuper(user: Permissions)
    ensures Permitted(user, Some([])) <==> "SUPER" in user
  {
  }

  /** `parse(msg, permissions)` against the registered commands. */
  function ParseMessage(commands: map<string, Registration>, msg: string, user: Permissions): (c: Command)
    ensures c.cmd == CommandName(StripSlash(msg)) && c.args == Arguments(StripSlash(msg))
    ensures !c.fallback <==> c.cmd in commands && Permitted(user, commands[c.cmd].permissions)
  {
    var m := StripSlash(msg);
    var command := CommandName(m);
    var args := Arguments(m);
    if command !in commands then Command(true, command, args)
    else if !Permitted(user, commands[command].permissions) then Command(true, command, args)
    else Command(false, command, args)
  }

  /** `run(command, data)`, on the handlers it would call. */
  function RunCommand(commands: map<string, Registration>, fallbackHandler: Option<HandlerId>, c: Command): (d: Dispatch)
    ensures c.fallback ==> (d == Ignored <==> fallbackHandler.None?)
    ensures !c.fallback ==> (d == Ignored <==> c.cmd !in commands)
  {
    if c.fallback then
      if fallbackHandler.Some? then Call(fallbackHandler.value) else Ignored
    else if c.cmd !in commands then Ignored
    else Call(commands[c.cmd].handler)
  }

  class CommandRouter {
    var commands: map<string, Registration>
    var fallbackHandler: Option<HandlerId>

    constructor ()
      ensures commands == map[] && fallbackHandler == None
    {
      commands := map[];
      fallbackHandler := None;
    }

    /** `add(command, handler, permissions)`: registers or replaces the command. */
    method Add(command: string, handler: HandlerId, permissions: Option<Permissions>)
      modifies this
      ensures commands == old(commands)[command := Registration(handler, permissions)]
      ensures fallbackHandler == old(fallbackHandler)
    {
      commands := commands[command := Registration(handler, permissions)];
    }

    /** `fallback(handler)`: sets the fallback handler, or clears it. */
    method Fallback(handler: Option<HandlerId>)
      modifies this
      ensures fallbackHandler == handler && commands == old(commands)
    {
      fallbackHandler := handler;
    }

    function Parse(msg: string, user: Permissions): (c: Command)
      reads this
      ensures !c.fallback ==> c.cmd in commands
    {
      ParseMessage(commands, msg, user)
    }

    function Run(c: Command): (d: Dispatch)
      reads this
      ensures c.fallback ==> (d == Ignored <==> fallbackHandler.None?)
      ensures c.fallback && fallbackHandler.Some? ==> d == Call(fallbackHandler.value)
      ensures !c.fallback ==> (d == Ignored <==> c.cmd !in commands)
      ensures !c.fallback && c.cmd in commands ==> d == Call(commands[c.cmd].handler)
    {
      RunCommand(commands, fallbackHandler, c)
    }
  }

  /** A message that passes the gate runs the handler registered for its command. */
  lemma ParsedRunsHandler(commands: map<string, Registration>, fallbackHandler: Option<HandlerId>, msg: string, user: Permissions)
    requires !ParseMessage(commands, msg, user).fallback
    ensures RunCommand(commands, fallbackHandler, ParseMessage(commands, msg, user))
      == Call(commands[CommandName(StripSlash(msg))].handler)
  {
  }

  /** An unregistered command goes to the fallback handler, or is ignored without one. */
  lemma UnknownFallsBack(commands: map<string, Registration>, fallbackHandler: Option<HandlerId>, msg: string, user: Permissions)
    requires CommandName(StripSlash(msg)) !in commands
    ensures ParseMessage(commands, msg, user).fallback
    ensures RunCommand(commands, fallbackHandler, ParseMessage(commands, msg, user))
      == if fallbackHandler.Some? then Call(fallbackHandler.value) else Ignored
  {
  }
}
