/**
 Reading a command line for completion (src/utils/shell-completion.ts, 99-108, 517-526, 583-747 and
 924-932).

 Wrapper commands (`sudo -u root env A=1 git ...`) are stripped; the rest is walked down the tree of
 subcommands, consuming flags with their values. The promises are that stripping undoes wrapping, and
 that the walk assigns one role to every token, follows the tree from its root, and reports a missing
 flag value only for the last flag. Loading a command's tree is a parameter.
 */
module ShellCompletion {
  import opened Prelude

  // ---------------------------------------------------------------------------
  // Tokens
  // ---------------------------------------------------------------------------

  const WRAPPERS: set<string> := {"command", "env", "nohup", "sudo", "time"}

  function OptionsWithValue(wrapper: string): set<string> {
    if wrapper == "env" then {"-u"}
    else if wrapper == "sudo" then {"-g", "-h", "-p", "-u"}
    else if wrapper == "time" then {"-f", "-o"}
    else {}
  }

  predicate StartsWithDash(token: string) {
    token != "" && token[0] == '-'
  }

  /** `token.split('=')[0]`. */
  function BeforeEquals(token: string): string {
    Split(token, '=')[0]
  }

  predicate IsNameStart(c: char) {
    'A' <= c <= 'Z' || 'a' <= c <= 'z' || c == '_'
  }

  predicate IsNameChar(c: char) {
    IsNameStart(c) || '0' <= c <= '9'
  }

  /** `NAME=...`, the assignments `env` takes. */
  predicate IsAssignment(token: string) {
    var name := BeforeEquals(token);
    '=' in token && name != "" && IsNameStart(name[0]) && forall i :: 0 <= i < |name| ==> IsNameChar(name[i])
  }

  predicate SkippedAssignment(wrapper: string, token: string) {
    wrapper == "env" && IsAssignment(token)
  }

  predicate TakesNextToken(wrapper: string, token: string) {
    BeforeEquals(token) in OptionsWithValue(wrapper) && '=' !in token
  }

  // ---------------------------------------------------------------------------
  // Wrappers
  // ---------------------------------------------------------------------------

  /** The first index, from `index` on, that is not an option of the wrapper. */
  function OptionsEnd(wrapper: string, tokens: seq<string>, index: nat): (end: nat)
    requires index <= |tokens|
    ensures index <= end <= |tokens|
    decreases |tokens| - index
  {
    if index == |tokens| then index
    else if SkippedAssignment(wrapper, tokens[index]) then OptionsEnd(wrapper, tokens, index + 1)
    else if !StartsWithDash(tokens[index]) then index
    else if TakesNextToken(wrapper, tokens[index]) && index + 1 < |tokens| then OptionsEnd(wrapper, tokens, index + 2)
    else OptionsEnd(wrapper, tokens, index + 1)
  }

  datatype Stripped = Stripped(awaitingCommand: bool, tokens: seq<string>)

  function Strip(tokens: seq<string>): Stripped {
    if tokens == [] || tokens[0] !in WRAPPERS then Stripped(false, tokens)
    else
      var index := OptionsEnd(tokens[0], tokens, 1);
      if index >= |tokens| then Stripped(true, []) else Strip(tokens[index..])
  }

  method SkipOptions(wrapper: string, tokens: seq<string>) returns (index: nat)
    requires tokens != []
    ensures index == OptionsEnd(wrapper, tokens, 1)
  {
    index := 1;
    while index < |tokens|
      invariant 1 <= index <= |tokens|
      invariant OptionsEnd(wrapper, tokens, index) == OptionsEnd(wrapper, tokens, 1)
    {
      var token := tokens[index];
      if wrapper == "env" && IsAssignment(token) {
        index := index + 1;
        continue;
      }
      if !StartsWithDash(token) {
        break;
      }
      var takesValue := BeforeEquals(token) in OptionsWithValue(wrapper);
      index := index + 1;
      if takesValue && '=' !in token && index < |tokens| {
        index := index + 1;
      }
    }
  }

  method StripWrapperTokens(tokens: seq<string>) returns (stripped: Stripped)
    ensures stripped == Strip(tokens)
  {
    var remainingTokens := tokens;
    while |remainingTokens| > 0 && remainingTokens[0] in WRAPPERS
      invariant Strip(remainingTokens) == Strip(tokens)
      decreases |remainingTokens|
    {
      var index := SkipOptions(remainingTokens[0], remainingTokens);
      if index >= |remainingTokens| {
        return Stripped(true, []);
      }
      remainingTokens := remainingTokens[index..];
    }
    stripped := Stripped(false, remainingTokens);
  }

  // --- What stripping means --------------------------------------------------

  /** A list of options as the wrapper reads it: assignments (for `env`), options, options with a value. */
  predicate AreOptions(wrapper: string, options: seq<string>) {
    options == []
    || (SkippedAssignment(wrapper, options[0]) && AreOptions(wrapper, options[1..]))
    || (!SkippedAssignment(wrapper, options[0]) && StartsWithDash(options[0])
        && if TakesNextToken(wrapper, options[0]) then |options| >= 2 && AreOptions(wrapper, options[2..])
           else AreOptions(wrapper, options[1..]))
  }

  /** One wrapper with its options. */
  predicate IsWrapping(tokens: seq<string>) {
    tokens != [] && tokens[0] in WRAPPERS && AreOptions(tokens[0], tokens[1..])
  }

  /** A token no wrapper can read as one of its options. */
  predicate IsCommandWord(wrapper: string, token: string) {
    !StartsWithDash(token) && !SkippedAssignment(wrapper, token)
  }

  lemma {:induction false} OptionsEndIsMaximal(wrapper: string, tokens: seq<string>, index: nat)
    requires index <= |tokens|
    ensures var end := OptionsEnd(wrapper, tokens, index);
            end < |tokens| ==> AreOptions(wrapper, tokens[index..end]) && IsCommandWord(wrapper, tokens[end])
    decreases |tokens| - index
  {
    var end := OptionsEnd(wrapper, tokens, index);
    if index < |tokens| && end < |tokens| && end > index {
      var next := if !SkippedAssignment(wrapper, tokens[index]) && TakesNextToken(wrapper, tokens[index]) then index + 2 else index + 1;
      OptionsEndIsMaximal(wrapper, tokens, next);
      assert tokens[index..end][next - index..] == tokens[next..end];
    }
  }

  lemma {:induction false} OptionsAreSkipped(wrapper: string, before: seq<string>, options: seq<string>, rest: seq<string>)
    requires AreOptions(wrapper, options) && rest != [] && IsCommandWord(wrapper, rest[0])
    ensures OptionsEnd(wrapper, before + options + rest, |before|) == |before| + |options|
    decreases |options|
  {
    var tokens := before + options + rest;
    if options == [] {
      assert tokens[|before|] == rest[0];
    } else {
      var n := if !SkippedAssignment(wrapper, options[0]) && TakesNextToken(wrapper, options[0]) then 2 else 1;
      assert tokens[|before|] == options[0];
      OptionsAreSkipped(wrapper, before + options[..n], options[n..], rest);
      assert before + options[..n] + options[n..] == before + options by {
        ConcatAssociates(before, options[..n], options[n..]);
        assert options == options[..n] + options[n..];
      }
    }
  }

  /** A command line whose wrappers all read what follows them as a command. */
  predicate IsWrapped(wrappings: seq<seq<string>>, command: seq<string>) {
    command != [] && command[0] !in WRAPPERS
    && forall i :: 0 <= i < |wrappings| ==>
         IsWrapping(wrappings[i]) && (i == |wrappings| - 1 ==> IsCommandWord(wrappings[i][0], command[0]))
  }

  lemma WrapperIsCommandWord(wrapper: string, token: string)
    requires token in WRAPPERS
    ensures IsCommandWord(wrapper, token)
  {
    assert token[0] != '-' && '=' !in token;
  }

  /** One wrapper is stripped off. */
  lemma StripOne(first: seq<string>, rest: seq<string>)
    requires IsWrapping(first) && rest != [] && IsCommandWord(first[0], rest[0])
    ensures Strip(first + rest) == Strip(rest)
  {
    var tokens := first + rest;
    OptionsAreSkipped(first[0], [first[0]], first[1..], rest);
    assert [first[0]] + first[1..] == first;
    assert tokens[0] == first[0] && OptionsEnd(tokens[0], tokens, 1) == |first| && tokens[|first|..] == rest;
  }

  lemma WrappedTail(wrappings: seq<seq<string>>, command: seq<string>)
    requires IsWrapped(wrappings, command) && wrappings != []
    ensures IsWrapped(wrappings[1..], command) && IsWrapping(wrappings[0])
    ensures var rest := Flatten(wrappings[1..]) + command; rest != [] && IsCommandWord(wrappings[0][0], rest[0])
  {
    var others := wrappings[1..];
    forall i | 0 <= i < |others| ensures others[i] == wrappings[i + 1] {
    }
    if others != [] {
      assert IsWrapping(others[0]);
      assert (Flatten(others) + command)[0] == others[0][0];
      WrapperIsCommandWord(wrappings[0][0], others[0][0]);
    } else {
      assert Flatten(others) + command == command;
    }
  }

  /** Stripping undoes any wrapping. */
  lemma {:induction false} StripUndoesWrapping(wrappings: seq<seq<string>>, command: seq<string>)
    requires IsWrapped(wrappings, command)
    ensures Strip(Flatten(wrappings) + command) == Stripped(false, command)
    decreases |wrappings|
  {
    if wrappings == [] {
      assert Flatten(wrappings) + command == command;
    } else {
      WrappedTail(wrappings, command);
      StripUndoesWrapping(wrappings[1..], command);
      StripOne(wrappings[0], Flatten(wrappings[1..]) + command);
      assert wrappings[0] + (Flatten(wrappings[1..]) + command) == Flatten(wrappings) + command;
    }
  }

  lemma FirstWrapping(tokens: seq<string>)
    requires tokens != [] && tokens[0] in WRAPPERS
    ensures var index := OptionsEnd(tokens[0], tokens, 1);
            index < |tokens| ==> IsWrapping(tokens[..index]) && IsCommandWord(tokens[0], tokens[index])
  {
    var index := OptionsEnd(tokens[0], tokens, 1);
    OptionsEndIsMaximal(tokens[0], tokens, 1);
    assert tokens[..index][1..] == tokens[1..index];
  }

  lemma WrappedCons(first: seq<string>, others: seq<seq<string>>, command: seq<string>)
    requires IsWrapping(first) && IsWrapped(others, command)
    requires others == [] ==> IsCommandWord(first[0], command[0])
    ensures IsWrapped([first] + others, command)
  {
  }

  /** Stripping removes nothing but wrapping, and all of it: a line that yields a command was that command,
      wrapped. */
  lemma {:induction false} StripRemovesOnlyWrapping(tokens: seq<string>) returns (wrappings: seq<seq<string>>)
    requires !Strip(tokens).awaitingCommand && tokens != []
    ensures tokens == Flatten(wrappings) + Strip(tokens).tokens
    ensures IsWrapped(wrappings, Strip(tokens).tokens)
    decreases |tokens|
  {
    if tokens[0] !in WRAPPERS {
      wrappings := [];
    } else {
      var index := OptionsEnd(tokens[0], tokens, 1);
      var others := StripRemovesOnlyWrapping(tokens[index..]);
      wrappings := [tokens[..index]] + others;
      OneMoreWrapping(tokens, index, others);
    }
  }

  lemma OneMoreWrapping(tokens: seq<string>, index: nat, others: seq<seq<string>>)
    requires tokens != [] && tokens[0] in WRAPPERS && index == OptionsEnd(tokens[0], tokens, 1) && index < |tokens|
    requires var command := Strip(tokens[index..]).tokens;
             tokens[index..] == Flatten(others) + command && IsWrapped(others, command)
    ensures var wrappings, command := [tokens[..index]] + others, Strip(tokens[index..]).tokens;
            tokens == Flatten(wrappings) + command && IsWrapped(wrappings, command)
  {
    var command := Strip(tokens[index..]).tokens;
    FirstWrapping(tokens);
    PutInFront(tokens, index, others, command);
    assert tokens[..index][0] == tokens[0] && tokens[index..][0] == tokens[index];
    assert others == [] ==> Flatten(others) + command == command;
    WrappedCons(tokens[..index], others, command);
  }

  lemma PutInFront(tokens: seq<string>, index: nat, others: seq<seq<string>>, command: seq<string>)
    requires index <= |tokens| && tokens[index..] == Flatten(others) + command
    ensures tokens == Flatten([tokens[..index]] + others) + command
  {
    var first := tokens[..index];
    assert ([first] + others)[1..] == others;
    ConcatAssociates(first, Flatten(others), command);
    assert tokens == first + tokens[index..];
  }

  /** Nothing is left exactly when a wrapper is still waiting for its command, or there was nothing. */
  lemma {:induction false} AwaitingIsExhausted(tokens: seq<string>)
    ensures Strip(tokens).tokens == [] <==> tokens == [] || Strip(tokens).awaitingCommand
    ensures Strip(tokens).tokens != [] ==> Strip(tokens).tokens[0] !in WRAPPERS
    decreases |tokens|
  {
    if tokens != [] && tokens[0] in WRAPPERS {
      var index := OptionsEnd(tokens[0], tokens, 1);
      if index < |tokens| {
        AwaitingIsExhausted(tokens[index..]);
      }
    }
  }

  lemma StripTwice(tokens: seq<string>)
    ensures Strip(Strip(tokens).tokens) == Stripped(false, Strip(tokens).tokens)
  {
    AwaitingIsExhausted(tokens);
  }

  // ---------------------------------------------------------------------------
  // The command tree
  // ---------------------------------------------------------------------------

  datatype Flag = Flag(names: seq<string>, arg: Option<string>, args: seq<string>)

  datatype Node = Node(names: seq<string>, flags: seq<Flag>, subcommands: seq<Node>)

  function PrimaryName(flag: Flag): string {
    if flag.names == [] then "" else flag.names[0]
  }

  function ArgumentCount(flag: Flag): nat {
    if flag.arg.Some? then 1 else |flag.args|
  }

  function FlagsOf(nodes: seq<Node>): seq<Flag> {
    if nodes == [] then [] else FlagsOf(nodes[..|nodes| - 1]) + nodes[|nodes| - 1].flags
  }

  predicate HasName(flags: seq<Flag>, name: string) {
    exists i :: 0 <= i < |flags| && PrimaryName(flags[i]) == name
  }

  /** The first flag of every name, in order. */
  function FirstPerName(flags: seq<Flag>): seq<Flag> {
    if flags == [] then []
    else
      var before, last := FirstPerName(flags[..|flags| - 1]), flags[|flags| - 1];
      if HasName(before, PrimaryName(last)) then before else before + [last]
  }

  function AvailableFlags(nodes: seq<Node>): seq<Flag> {
    FirstPerName(FlagsOf(nodes))
  }

  /** One more flag, unless its name is taken. */
  function WithFlag(entries: seq<Flag>, flag: Flag): seq<Flag> {
    if HasName(entries, PrimaryName(flag)) then entries else entries + [flag]
  }

  lemma FirstPerNameSnoc(flags: seq<Flag>, more: seq<Flag>, j: nat)
    requires j < |more|
    ensures FirstPerName(flags + more[..j + 1]) == WithFlag(FirstPerName(flags + more[..j]), more[j])
  {
    var longer := flags + more[..j + 1];
    assert longer[..|longer| - 1] == flags + more[..j] && longer[|longer| - 1] == more[j];
  }

  /** The flags of one more node; the map of the code, with its insertion order, is the list. */
  method AddFlags(entries: seq<Flag>, ghost before: seq<Flag>, flags: seq<Flag>) returns (uniqueEntries: seq<Flag>)
    requires entries == FirstPerName(before)
    ensures uniqueEntries == FirstPerName(before + flags)
  {
    uniqueEntries := entries;
    assert before + flags[..0] == before;
    for j := 0 to |flags|
      invariant uniqueEntries == FirstPerName(before + flags[..j])
    {
      FirstPerNameSnoc(before, flags, j);
      if !HasName(uniqueEntries, PrimaryName(flags[j])) {
        uniqueEntries := uniqueEntries + [flags[j]];
      }
    }
    assert flags[..|flags|] == flags;
  }

  method CollectAvailableFlags(nodes: seq<Node>) returns (uniqueEntries: seq<Flag>)
    ensures uniqueEntries == AvailableFlags(nodes)
  {
    uniqueEntries := [];
    for i := 0 to |nodes|
      invariant uniqueEntries == AvailableFlags(nodes[..i])
    {
      assert nodes[..i + 1][..i] == nodes[..i];
      uniqueEntries := AddFlags(uniqueEntries, FlagsOf(nodes[..i]), nodes[i].flags);
    }
    assert nodes[..|nodes|] == nodes;
  }

  /** No earlier flag has the same name. */
  ghost predicate IsFirstOfName(flags: seq<Flag>, flag: Flag) {
    exists k :: 0 <= k < |flags| && flags[k] == flag && !HasName(flags[..k], PrimaryName(flag))
  }

  lemma HasNameSnoc(flags: seq<Flag>, last: Flag, name: string)
    ensures HasName(flags + [last], name) <==> HasName(flags, name) || PrimaryName(last) == name
  {
    var all := flags + [last];
    if HasName(flags, name) {
      var i :| 0 <= i < |flags| && PrimaryName(flags[i]) == name;
      assert all[i] == flags[i];
    }
    assert all[|flags|] == last;
  }

  lemma {:induction false} NamesAreKept(flags: seq<Flag>, name: string)
    ensures HasName(FirstPerName(flags), name) <==> HasName(flags, name)
  {
    if flags != [] {
      var before, last := flags[..|flags| - 1], flags[|flags| - 1];
      assert flags == before + [last];
      NamesAreKept(before, name);
      NamesAreKept(before, PrimaryName(last));
      HasNameSnoc(before, last, name);
      HasNameSnoc(FirstPerName(before), last, name);
    }
  }

  lemma FirstOfNameSnoc(flags: seq<Flag>, last: Flag, flag: Flag)
    ensures IsFirstOfName(flags + [last], flag) <==> IsFirstOfName(flags, flag) || (flag == last && !HasName(flags, PrimaryName(last)))
  {
    var all := flags + [last];
    assert all[..|flags|] == flags;
    forall k | 0 <= k < |flags| ensures all[k] == flags[k] && all[..k] == flags[..k] {
    }
    if flag == last && !HasName(flags, PrimaryName(last)) {
      assert all[|flags|] == flag && !HasName(all[..|flags|], PrimaryName(flag));
    }
  }

  /** Of the flags with the same name the first wins, from the root down; each name is offered once. */
  lemma {:induction false} FirstFlagWins(flags: seq<Flag>, flag: Flag)
    ensures flag in FirstPerName(flags) <==> IsFirstOfName(flags, flag)
  {
    if flags != [] {
      var before, last := flags[..|flags| - 1], flags[|flags| - 1];
      assert flags == before + [last];
      FirstFlagWins(before, flag);
      NamesAreKept(before, PrimaryName(last));
      FirstOfNameSnoc(before, last, flag);
    }
  }

  ghost predicate DistinctNames(flags: seq<Flag>) {
    forall i, j :: 0 <= i < j < |flags| ==> PrimaryName(flags[i]) != PrimaryName(flags[j])
  }

  lemma DistinctSnoc(flags: seq<Flag>, last: Flag)
    requires DistinctNames(flags) && !HasName(flags, PrimaryName(last))
    ensures DistinctNames(flags + [last])
  {
    forall i | 0 <= i < |flags| ensures PrimaryName(flags[i]) != PrimaryName(last) {
    }
  }

  lemma {:induction false} NamesAreDistinct(flags: seq<Flag>)
    ensures DistinctNames(FirstPerName(flags))
  {
    if flags != [] {
      var before, last := flags[..|flags| - 1], flags[|flags| - 1];
      NamesAreDistinct(before);
      if !HasName(FirstPerName(before), PrimaryName(last)) {
        DistinctSnoc(FirstPerName(before), last);
      }
    }
  }

  function FindFlag(flags: seq<Flag>, token: string): (found: Option<Flag>)
    ensures found.Some? ==> found.value in flags && BeforeEquals(token) in found.value.names
    ensures found.None? ==> forall f :: f in flags ==> BeforeEquals(token) !in f.names
  {
    if flags == [] then None
    else if BeforeEquals(token) in flags[0].names then Some(flags[0])
    else FindFlag(flags[1..], token)
  }

  function FindNode(nodes: seq<Node>, token: string): (found: Option<Node>)
    ensures found.Some? ==> found.value in nodes && token in found.value.names
    ensures found.None? ==> forall n :: n in nodes ==> token !in n.names
  {
    if nodes == [] then None
    else if token in nodes[0].names then Some(nodes[0])
    else FindNode(nodes[1..], token)
  }

  // ---------------------------------------------------------------------------
  // The walk
  // ---------------------------------------------------------------------------

  datatype FlagValue = FlagValue(flag: Flag, argumentIndex: nat)

  datatype Walk = Walk(visited: seq<Node>, awaiting: Option<FlagValue>, positional: nat)

  function InlineCount(token: string): nat {
    if '=' in token then 1 else 0
  }

  /** The arguments of a flag that are not part of its token. */
  function RemainingCount(flag: Flag, token: string): nat {
    if ArgumentCount(flag) >= InlineCount(token) then ArgumentCount(flag) - InlineCount(token) else 0
  }

  /** The part a token plays on the command line; `owes` counts the values of a flag still to come. */
  datatype Role =
    | FlagToken(flag: Flag, owes: nat)
    | ValueOf(flag: Flag, owes: nat)
    | Subcommand(node: Node)
    | Positional

  /** What a token is for a path of commands: a flag of any of them, else a subcommand of the last one. */
  function RoleOn(path: seq<Node>, token: string): (role: Role)
    requires path != []
    ensures !role.ValueOf?
    ensures role.FlagToken? ==> role.owes == RemainingCount(role.flag, token) && BeforeEquals(token) in role.flag.names
    ensures role.Subcommand? ==> role.node in path[|path| - 1].subcommands
  {
    match FindFlag(AvailableFlags(path), token)
    case Some(flag) => FlagToken(flag, RemainingCount(flag, token))
    case None =>
      match FindNode(path[|path| - 1].subcommands, token)
      case Some(node) => Subcommand(node)
      case None => Positional
  }

  function WalkDown(visited: seq<Node>, tokens: seq<string>, positional: nat, prefix: string): Walk
    requires visited != []
    decreases |tokens|
  {
    if tokens == [] then Walk(visited, None, positional)
    else
      var role := RoleOn(visited, tokens[0]);
      if role.FlagToken? then
        if role.owes <= |tokens| - 1 then WalkDown(visited, tokens[1 + role.owes..], positional, prefix)
        else Walk(visited,
                  if StartsWithDash(prefix) then None else Some(FlagValue(role.flag, InlineCount(tokens[0]) + |tokens| - 1)),
                  positional)
      else if role.Subcommand? then WalkDown(visited + [role.node], tokens[1..], 0, prefix)
      else WalkDown(visited, tokens[1..], positional + 1, prefix)
  }

  datatype CatalogContext = CatalogContext(
    activeNode: Option<Node>,
    awaitingFlagValue: Option<FlagValue>,
    visitedNodes: seq<Node>,
    wrapperAwaitingCommand: bool,
    positionalArgumentIndex: nat)

  function CatalogOf(tokens: seq<string>, prefix: string, load: string -> Option<Node>): Option<CatalogContext> {
    var stripped := Strip(tokens);
    if stripped.tokens == [] then
      if stripped.awaitingCommand then Some(CatalogContext(None, None, [], true, 0)) else None
    else
      match load(stripped.tokens[0])
      case None => None
      case Some(root) =>
        var walk := WalkDown([root], stripped.tokens[1..], 0, prefix);
        if walk.visited == [] then None
        else Some(CatalogContext(Some(walk.visited[|walk.visited| - 1]), walk.awaiting, walk.visited, false, walk.positional))
  }

  /** What a flag takes of the tokens after it, and whether one of its values is still to be typed. */
  method ConsumeFlag(flag: Flag, tokens: seq<string>, index: nat, currentTokenPrefix: string)
    returns (awaiting: Option<FlagValue>, next: nat)
    requires index < |tokens|
    ensures var remaining, available := RemainingCount(flag, tokens[index]), |tokens| - index - 1;
            if remaining <= available then awaiting == None && next == index + 1 + remaining
            else
              && next == |tokens|
              && awaiting == if StartsWithDash(currentTokenPrefix) then None
                             else Some(FlagValue(flag, InlineCount(tokens[index]) + available))
  {
    awaiting, next := None, index;
    var expectedArgumentCount := ArgumentCount(flag);
    if expectedArgumentCount > 0 {
      var inlineArgumentCount := InlineCount(tokens[index]);
      var remainingArgumentCount := RemainingCount(flag, tokens[index]);
      var available := |tokens| - index - 1;
      var availableFollowingCount := if remainingArgumentCount <= available then remainingArgumentCount else available;
      next := next + availableFollowingCount;
      if remainingArgumentCount > availableFollowingCount && !StartsWithDash(currentTokenPrefix) {
        awaiting := Some(FlagValue(flag, inlineArgumentCount + availableFollowingCount));
      }
    }
    next := next + 1;
  }

  lemma WalkServedFlag(visited: seq<Node>, tokens: seq<string>, index: nat, positional: nat, prefix: string, role: Role)
    requires visited != [] && index < |tokens| && role == RoleOn(visited, tokens[index]) && role.FlagToken?
    requires role.owes <= |tokens| - index - 1
    ensures WalkDown(visited, tokens[index..], positional, prefix)
         == WalkDown(visited, tokens[index + 1 + role.owes..], positional, prefix)
  {
    var rest := tokens[index..];
    assert rest[0] == tokens[index] && rest[1 + role.owes..] == tokens[index + 1 + role.owes..];
  }

  lemma WalkStarvedFlag(visited: seq<Node>, tokens: seq<string>, index: nat, positional: nat, prefix: string, role: Role)
    requires visited != [] && index < |tokens| && role == RoleOn(visited, tokens[index]) && role.FlagToken?
    requires role.owes > |tokens| - index - 1
    ensures WalkDown(visited, tokens[index..], positional, prefix)
         == Starved(visited, positional, prefix, role.flag, tokens[index], |tokens| - index - 1)
  {
    var rest := tokens[index..];
    assert rest[0] == tokens[index];
    WalkEnds(visited, rest, positional, prefix, role, |rest| - 1);
  }

  /** The walk over any other token. */
  lemma WalkOther(visited: seq<Node>, tokens: seq<string>, index: nat, positional: nat, prefix: string)
    requires visited != [] && index < |tokens| && !RoleOn(visited, tokens[index]).FlagToken?
    ensures var role := RoleOn(visited, tokens[index]);
            var walk := WalkDown(visited, tokens[index..], positional, prefix);
            if role.Subcommand? then walk == WalkDown(visited + [role.node], tokens[index + 1..], 0, prefix)
            else walk == WalkDown(visited, tokens[index + 1..], positional + 1, prefix)
  {
    var rest := tokens[index..];
    assert rest[0] == tokens[index] && rest[1..] == tokens[index + 1..];
  }

  /** What the walk comes to, from a place of the line: more walking, or the end if a flag value is awaited. */
  ghost predicate Continues(walk: Walk, visited: seq<Node>, awaiting: Option<FlagValue>, tokens: seq<string>, next: nat,
                            positional: nat, prefix: string)
  {
    && visited != [] && next <= |tokens|
    && if awaiting.Some? then next == |tokens| && walk == Walk(visited, awaiting, positional)
       else walk == WalkDown(visited, tokens[next..], positional, prefix)
  }

  /** The walk over a flag, from any place of the line: behind its values, or nowhere if one is missing. */
  lemma FlagContinues(visited: seq<Node>, tokens: seq<string>, index: nat, positional: nat, prefix: string, role: Role,
                      awaiting: Option<FlagValue>, next: nat)
    requires visited != [] && index < |tokens| && role == RoleOn(visited, tokens[index]) && role.FlagToken?
    requires var available := |tokens| - index - 1;
             if role.owes <= available then awaiting == None && next == index + 1 + role.owes
             else next == |tokens| && awaiting == Starved(visited, positional, prefix, role.flag, tokens[index], available).awaiting
    ensures Continues(WalkDown(visited, tokens[index..], positional, prefix), visited, awaiting, tokens, next, positional, prefix)
  {
    if role.owes <= |tokens| - index - 1 {
      WalkServedFlag(visited, tokens, index, positional, prefix, role);
    } else {
      WalkStarvedFlag(visited, tokens, index, positional, prefix, role);
      EndContinues(visited, tokens, positional, prefix, awaiting);
    }
  }

  lemma EndContinues(visited: seq<Node>, tokens: seq<string>, positional: nat, prefix: string, awaiting: Option<FlagValue>)
    requires visited != []
    ensures Continues(Walk(visited, awaiting, positional), visited, awaiting, tokens, |tokens|, positional, prefix)
  {
    assert tokens[|tokens|..] == [];
  }

  /** One turn of the loop keeps what the walk comes to. */
  method TakeToken(visitedNodes: seq<Node>, argumentTokens: seq<string>, index: nat, positional: nat, currentTokenPrefix: string)
    returns (visited: seq<Node>, awaiting: Option<FlagValue>, next: nat, positionalArgumentIndex: nat)
    requires visitedNodes != [] && index < |argumentTokens|
    ensures index < next
    ensures Continues(WalkDown(visitedNodes, argumentTokens[index..], positional, currentTokenPrefix),
                      visited, awaiting, argumentTokens, next, positionalArgumentIndex, currentTokenPrefix)
  {
    var token := argumentTokens[index];
    visited, awaiting, next, positionalArgumentIndex := visitedNodes, None, index + 1, positional;
    var availableFlags := CollectAvailableFlags(visitedNodes);
    var matchedFlag := FindFlag(availableFlags, token);
    if matchedFlag.Some? {
      awaiting, next := ConsumeFlag(matchedFlag.value, argumentTokens, index, currentTokenPrefix);
      FlagContinues(visitedNodes, argumentTokens, index, positional, currentTokenPrefix, RoleOn(visitedNodes, token), awaiting, next);
      return;
    }
    WalkOther(visitedNodes, argumentTokens, index, positional, currentTokenPrefix);
    var nextNode := FindNode(visitedNodes[|visitedNodes| - 1].subcommands, token);
    if nextNode.Some? {
      visited := visitedNodes + [nextNode.value];
      positionalArgumentIndex := 0;
    } else {
      positionalArgumentIndex := positional + 1;
    }
  }

  /** The loop of `resolveCommandCatalogContext`. */
  method WalkTokens(root: Node, argumentTokens: seq<string>, currentTokenPrefix: string) returns (walk: Walk)
    ensures walk == WalkDown([root], argumentTokens, 0, currentTokenPrefix) && walk.visited != []
  {
    ghost var result := WalkDown([root], argumentTokens, 0, currentTokenPrefix);
    var visitedNodes := [root];
    var awaitingFlagValue: Option<FlagValue> := None;
    var positionalArgumentIndex: nat := 0;
    var index: nat := 0;
    while index < |argumentTokens|
      invariant Continues(result, visitedNodes, awaitingFlagValue, argumentTokens, index, positionalArgumentIndex,
                          currentTokenPrefix)
    {
      visitedNodes, awaitingFlagValue, index, positionalArgumentIndex :=
        TakeToken(visitedNodes, argumentTokens, index, positionalArgumentIndex, currentTokenPrefix);
    }
    walk := Walk(visitedNodes, awaitingFlagValue, positionalArgumentIndex);
  }

  method ResolveCommandCatalogContext(tokens: seq<string>, currentTokenPrefix: string, load: string -> Option<Node>)
    returns (context: Option<CatalogContext>)
    ensures context == CatalogOf(tokens, currentTokenPrefix, load)
  {
    var wrapperResolution := StripWrapperTokens(tokens);
    var strippedTokens := wrapperResolution.tokens;
    if |strippedTokens| == 0 {
      return if wrapperResolution.awaitingCommand then Some(CatalogContext(None, None, [], true, 0)) else None;
    }
    var rootNode := load(strippedTokens[0]);
    if rootNode.None? {
      return None;
    }
    var walk := WalkTokens(rootNode.value, strippedTokens[1..], currentTokenPrefix);
    context := Some(CatalogContext(Some(walk.visited[|walk.visited| - 1]), walk.awaiting, walk.visited, false, walk.positional));
  }

  // --- What the walk means ---------------------------------------------------

  predicate Owing(roles: seq<Role>) {
    roles != [] && (roles[|roles| - 1].FlagToken? || roles[|roles| - 1].ValueOf?) && roles[|roles| - 1].owes > 0
  }

  function SubcommandsOf(roles: seq<Role>): seq<Node> {
    if roles == [] then []
    else SubcommandsOf(roles[..|roles| - 1]) + if roles[|roles| - 1].Subcommand? then [roles[|roles| - 1].node] else []
  }

  function PathOf(root: Node, roles: seq<Role>): (path: seq<Node>)
    ensures path != []
  {
    [root] + SubcommandsOf(roles)
  }

  /** Positional tokens since the last subcommand. */
  function PositionalsOf(roles: seq<Role>): nat {
    if roles == [] || roles[|roles| - 1].Subcommand? then 0
    else PositionalsOf(roles[..|roles| - 1]) + if roles[|roles| - 1].Positional? then 1 else 0
  }

  /** The role of one more token: a value while the last flag owes one, else what it is for the path so far. */
  function NextRole(root: Node, roles: seq<Role>, token: string): Role {
    if Owing(roles) then ValueOf(roles[|roles| - 1].flag, roles[|roles| - 1].owes - 1)
    else RoleOn(PathOf(root, roles), token)
  }

  /** The reference: one role for every token, decided from the tokens before it. */
  function RolesFrom(root: Node, roles: seq<Role>, tokens: seq<string>): seq<Role>
    decreases tokens
  {
    if tokens == [] then roles else RolesFrom(root, roles + [NextRole(root, roles, tokens[0])], tokens[1..])
  }

  /** The value of a flag to be typed next. */
  function NextValue(roles: seq<Role>): FlagValue
    requires Owing(roles)
  {
    var last := roles[|roles| - 1];
    FlagValue(last.flag, if ArgumentCount(last.flag) >= last.owes then ArgumentCount(last.flag) - last.owes else 0)
  }

  function WalkOf(root: Node, roles: seq<Role>, prefix: string): Walk {
    Walk(PathOf(root, roles), if Owing(roles) && !StartsWithDash(prefix) then Some(NextValue(roles)) else None, PositionalsOf(roles))
  }

  lemma SnocRole(root: Node, roles: seq<Role>, role: Role)
    ensures PathOf(root, roles + [role]) == if role.Subcommand? then PathOf(root, roles) + [role.node] else PathOf(root, roles)
    ensures PositionalsOf(roles + [role]) == if role.Subcommand? then 0 else PositionalsOf(roles) + if role.Positional? then 1 else 0
  {
    assert (roles + [role])[..|roles|] == roles;
  }

  /** The tokens after a flag are its values, as many as it still owes. */
  lemma {:induction false} ValuesFollow(root: Node, roles: seq<Role>, tokens: seq<string>, n: nat) returns (after: seq<Role>)
    requires roles != [] && (roles[|roles| - 1].FlagToken? || roles[|roles| - 1].ValueOf?)
    requires n <= |tokens| && n <= roles[|roles| - 1].owes
    ensures RolesFrom(root, roles, tokens) == RolesFrom(root, after, tokens[n..])
    ensures after != [] && (after[|after| - 1].FlagToken? || after[|after| - 1].ValueOf?)
    ensures after[|after| - 1].flag == roles[|roles| - 1].flag && after[|after| - 1].owes == roles[|roles| - 1].owes - n
    ensures PathOf(root, after) == PathOf(root, roles) && PositionalsOf(after) == PositionalsOf(roles)
    decreases n
  {
    if n == 0 {
      after := roles;
      assert tokens[0..] == tokens;
    } else {
      var value := NextRole(root, roles, tokens[0]);
      SnocRole(root, roles, value);
      after := ValuesFollow(root, roles + [value], tokens[1..], n - 1);
      assert tokens[1..][n - 1..] == tokens[n..];
    }
  }

  /** The walk from any point where no flag owes a value. */
  lemma {:induction false} WalkFollowsRoles(root: Node, roles: seq<Role>, tokens: seq<string>, prefix: string)
    requires !Owing(roles)
    ensures WalkDown(PathOf(root, roles), tokens, PositionalsOf(roles), prefix) == WalkOf(root, RolesFrom(root, roles, tokens), prefix)
    decreases |tokens|, 1
  {
    if tokens != [] {
      var role := NextRole(root, roles, tokens[0]);
      if role.FlagToken? {
        WalkOverFlag(root, roles, tokens, prefix);
      } else {
        SnocRole(root, roles, role);
        WalkFollowsRoles(root, roles + [role], tokens[1..], prefix);
      }
    }
  }

  lemma {:induction false} WalkOverFlag(root: Node, roles: seq<Role>, tokens: seq<string>, prefix: string)
    requires tokens != [] && !Owing(roles) && NextRole(root, roles, tokens[0]).FlagToken?
    ensures WalkDown(PathOf(root, roles), tokens, PositionalsOf(roles), prefix) == WalkOf(root, RolesFrom(root, roles, tokens), prefix)
    decreases |tokens|, 0
  {
    var role, rest := NextRole(root, roles, tokens[0]), tokens[1..];
    var path, positional := PathOf(root, roles), PositionalsOf(roles);
    if role.owes <= |rest| {
      var after := FlagStep(root, roles, tokens, role.owes);
      WalkFollowsRoles(root, after, rest[role.owes..], prefix);
      assert rest[role.owes..] == tokens[1 + role.owes..];
      assert WalkDown(path, tokens, positional, prefix) == WalkDown(path, tokens[1 + role.owes..], positional, prefix);
    } else {
      var after := FlagStep(root, roles, tokens, |rest|);
      assert rest[|rest|..] == [];
      WalkEnds(path, tokens, positional, prefix, role, |rest|);
      OwingWalk(root, after, prefix, role.flag, tokens[0], |rest|);
    }
  }

  /** A flag and n of the values it takes. */
  lemma FlagStep(root: Node, roles: seq<Role>, tokens: seq<string>, n: nat) returns (after: seq<Role>)
    requires tokens != [] && NextRole(root, roles, tokens[0]).FlagToken?
    requires n <= |tokens| - 1 && n <= NextRole(root, roles, tokens[0]).owes
    ensures RolesFrom(root, roles, tokens) == RolesFrom(root, after, tokens[1..][n..])
    ensures after != [] && (after[|after| - 1].FlagToken? || after[|after| - 1].ValueOf?)
    ensures var role := NextRole(root, roles, tokens[0]);
            after[|after| - 1].flag == role.flag && after[|after| - 1].owes == role.owes - n
    ensures PathOf(root, after) == PathOf(root, roles) && PositionalsOf(after) == PositionalsOf(roles)
  {
    var role := NextRole(root, roles, tokens[0]);
    SnocRole(root, roles, role);
    after := ValuesFollow(root, roles + [role], tokens[1..], n);
  }

  /** Where the walk ends when the line ends before the flag has all its values. */
  function Starved(path: seq<Node>, positional: nat, prefix: string, flag: Flag, token: string, given: nat): Walk {
    Walk(path, if StartsWithDash(prefix) then None else Some(FlagValue(flag, InlineCount(token) + given)), positional)
  }

  lemma OwingWalk(root: Node, roles: seq<Role>, prefix: string, flag: Flag, token: string, given: nat)
    requires Owing(roles) && roles[|roles| - 1].flag == flag && roles[|roles| - 1].owes == RemainingCount(flag, token) - given
    ensures WalkOf(root, roles, prefix) == Starved(PathOf(root, roles), PositionalsOf(roles), prefix, flag, token, given)
  {
    NextValueOf(roles, token, given);
  }

  lemma WalkEnds(path: seq<Node>, tokens: seq<string>, positional: nat, prefix: string, role: Role, given: nat)
    requires path != [] && tokens != [] && role == RoleOn(path, tokens[0]) && role.FlagToken? && role.owes > given == |tokens| - 1
    ensures WalkDown(path, tokens, positional, prefix) == Starved(path, positional, prefix, role.flag, tokens[0], given)
  {
  }

  /** The loop that skips over values, and the reference that gives every token a role, agree. */
  lemma WalkIsRoles(root: Node, tokens: seq<string>, prefix: string)
    ensures WalkDown([root], tokens, 0, prefix) == WalkOf(root, RolesFrom(root, [], tokens), prefix)
  {
    WalkFollowsRoles(root, [], tokens, prefix);
    assert PathOf(root, []) == [root];
  }

  /** A path of the command tree, from its root. */
  ghost predicate IsPath(root: Node, path: seq<Node>) {
    path != []
    && var n := |path| - 1;
       if n == 0 then path[0] == root else path[n] in path[n - 1].subcommands && IsPath(root, path[..n])
  }

  /** The commands a line names are a path of the tree. */
  lemma {:induction false} RolesFollowTree(root: Node, roles: seq<Role>, tokens: seq<string>)
    requires IsPath(root, PathOf(root, roles))
    ensures IsPath(root, PathOf(root, RolesFrom(root, roles, tokens)))
    decreases |tokens|
  {
    if tokens != [] {
      NextRoleFollowsTree(root, roles, tokens[0]);
      RolesFollowTree(root, roles + [NextRole(root, roles, tokens[0])], tokens[1..]);
    }
  }

  lemma NextRoleFollowsTree(root: Node, roles: seq<Role>, token: string)
    requires IsPath(root, PathOf(root, roles))
    ensures IsPath(root, PathOf(root, roles + [NextRole(root, roles, token)]))
  {
    var role, path := NextRole(root, roles, token), PathOf(root, roles);
    SnocRole(root, roles, role);
    if role.Subcommand? {
      assert (path + [role.node])[..|path|] == path;
    }
  }

  /** A flag token has a name of its flag and owes what the flag takes; a value follows a token that owes it. */
  ghost predicate FlagsFit(tokens: seq<string>, roles: seq<Role>) {
    && |tokens| == |roles|
    && (roles != [] ==>
          && var n := |roles| - 1;
          && FlagsFit(tokens[..n], roles[..n])
          && match roles[n]
             case FlagToken(flag, owes) => owes == RemainingCount(flag, tokens[n]) && BeforeEquals(tokens[n]) in flag.names
             case ValueOf(flag, owes) =>
               && n > 0 && (roles[n - 1].FlagToken? || roles[n - 1].ValueOf?)
               && roles[n - 1].flag == flag && roles[n - 1].owes == owes + 1
             case _ => true)
  }

  lemma HeadMoves(before: seq<string>, tokens: seq<string>)
    requires tokens != []
    ensures (before + [tokens[0]]) + tokens[1..] == before + tokens
  {
  }

  lemma FlagsFitSnoc(root: Node, tokens: seq<string>, roles: seq<Role>, token: string)
    requires FlagsFit(tokens, roles)
    ensures FlagsFit(tokens + [token], roles + [NextRole(root, roles, token)])
  {
    var role := NextRole(root, roles, token);
    assert (tokens + [token])[..|roles|] == tokens && (roles + [role])[..|roles|] == roles;
  }

  lemma {:induction false} RolesFit(root: Node, before: seq<string>, roles: seq<Role>, tokens: seq<string>)
    requires FlagsFit(before, roles)
    ensures FlagsFit(before + tokens, RolesFrom(root, roles, tokens))
    decreases |tokens|
  {
    if tokens == [] {
      assert before + tokens == before;
    } else {
      FlagsFitSnoc(root, before, roles, tokens[0]);
      RolesFit(root, before + [tokens[0]], roles + [NextRole(root, roles, tokens[0])], tokens[1..]);
      HeadMoves(before, tokens);
    }
  }

  /** A flag that owes values is the last flag on the line and has the name written there; everything after
      it is one of its values; and the next is one it declares. */
  lemma {:induction false} OwingFlagIsLast(tokens: seq<string>, roles: seq<Role>) returns (at: nat)
    requires FlagsFit(tokens, roles) && roles != []
    requires roles[|roles| - 1].FlagToken? || roles[|roles| - 1].ValueOf?
    ensures var last := roles[|roles| - 1];
            && at < |tokens| && roles[at].FlagToken? && roles[at].flag == last.flag
            && BeforeEquals(tokens[at]) in last.flag.names
            && (forall i :: at < i < |roles| ==> roles[i].ValueOf? && roles[i].flag == last.flag)
            && last.owes + (|roles| - 1 - at) == RemainingCount(last.flag, tokens[at])
  {
    var n := |roles| - 1;
    if roles[n].FlagToken? {
      at := n;
    } else {
      at := OwingFlagIsLast(tokens[..n], roles[..n]);
    }
  }

  /** The walk, whatever the line: a path of the tree; and, if a flag value is awaited, one that the last flag
      declares, with exactly the earlier ones already given. */
  lemma WalkIsSound(root: Node, tokens: seq<string>, prefix: string) returns (at: nat)
    ensures var walk := WalkDown([root], tokens, 0, prefix);
            && IsPath(root, walk.visited)
            && (walk.awaiting.Some? ==> IsAwaited(walk.awaiting.value, tokens, at))
  {
    var roles := RolesFrom(root, [], tokens);
    WalkIsRoles(root, tokens, prefix);
    RolesFollowTree(root, [], tokens);
    RolesFit(root, [], [], tokens);
    assert [] + tokens == tokens;
    at := 0;
    if Owing(roles) {
      at := OwingFlagIsLast(tokens, roles);
      NextValueOf(roles, tokens[at], |tokens| - 1 - at);
    }
  }

  lemma NextValueOf(roles: seq<Role>, token: string, given: nat)
    requires Owing(roles)
    requires var last := roles[|roles| - 1]; last.owes + given == RemainingCount(last.flag, token)
    ensures var value := NextValue(roles);
            value.argumentIndex == InlineCount(token) + given && value.argumentIndex < ArgumentCount(value.flag)
  {
  }

  /** What completion is told about a command line: the commands it names, as a path of the command's tree;
      and, if a flag value is awaited, that the last flag on the line, by the name written there, declares a
      value with this index. */
  lemma ContextIsSound(tokens: seq<string>, prefix: string, load: string -> Option<Node>) returns (at: nat)
    requires var context := CatalogOf(tokens, prefix, load); context.Some? && !context.value.wrapperAwaitingCommand
    ensures var context := CatalogOf(tokens, prefix, load).value;
            var command := Strip(tokens).tokens;
            && command != [] && load(command[0]).Some?
            && IsPath(load(command[0]).value, context.visitedNodes)
            && context.activeNode == Some(context.visitedNodes[|context.visitedNodes| - 1])
            && (context.awaitingFlagValue.Some? ==> IsAwaited(context.awaitingFlagValue.value, command[1..], at))
  {
    var command := Strip(tokens).tokens;
    at := WalkIsSound(load(command[0]).value, command[1..], prefix);
  }

  /** The value of the flag at a place, when the tokens after it are its earlier values. */
  ghost predicate IsAwaited(value: FlagValue, tokens: seq<string>, at: nat) {
    && at < |tokens| && BeforeEquals(tokens[at]) in value.flag.names
    && value.argumentIndex == InlineCount(tokens[at]) + |tokens| - 1 - at
    && value.argumentIndex < ArgumentCount(value.flag)
  }
}
