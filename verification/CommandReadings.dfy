/**
 What the tokens of a command line are taken for (src/utils/shell-completion.ts, 99-108, 517-526, 583-677 and
 704-739): which options of a wrapper take a value, what an assignment is, and when a token is a flag.
 */
module CommandReadings {
  import opened Prelude
  import opened ShellCompletion

  // ---------------------------------------------------------------------------
  // Wrappers
  // ---------------------------------------------------------------------------

  lemma NameBeforeEquals(name: string, value: string)
    requires '=' !in name
    ensures BeforeEquals(name) == name && BeforeEquals(name + "=" + value) == name
  {
    SplitWord(name, '=');
    SplitCons(name, value, '=');
    assert name + ['='] + value == name + "=" + value;
  }

  lemma SplitAtEquals(token: string) returns (name: string, value: string)
    requires '=' in token
    ensures '=' !in name && token == name + "=" + value
    decreases token
  {
    if token[0] == '=' {
      name, value := "", token[1..];
      assert token == "" + "=" + value;
    } else {
      assert token == [token[0]] + token[1..];
      var rest;
      rest, value := SplitAtEquals(token[1..]);
      name := [token[0]] + rest;
      assert token == name + "=" + value;
    }
  }

  /** These options of these wrappers take the next token as their value, and no others; and none does that has a value
      of its own behind an equals sign. */
  lemma OptionTakesValueExactly(wrapper: string, option: string)
    ensures '=' !in option ==>
              (TakesNextToken(wrapper, option) <==>
                 || (wrapper == "env" && option == "-u")
                 || (wrapper == "sudo" && (option == "-g" || option == "-h" || option == "-p" || option == "-u"))
                 || (wrapper == "time" && (option == "-f" || option == "-o")))
    ensures '=' in option ==> !TakesNextToken(wrapper, option)
  {
    if '=' !in option {
      NameBeforeEquals(option, "");
    }
  }

  /** A name as the shell has it: letters, digits and underscores, and no digit in front. */
  ghost predicate IsName(name: string) {
    && name != "" && !('0' <= name[0] <= '9')
    && forall i :: 0 <= i < |name| ==> 'A' <= name[i] <= 'Z' || 'a' <= name[i] <= 'z' || '0' <= name[i] <= '9' || name[i] == '_'
  }

  /** An assignment is such a name, an equals sign and any value; `env` takes it, and no other wrapper does. */
  lemma AssignmentExactly(wrapper: string, token: string)
    ensures SkippedAssignment(wrapper, token) <==>
              wrapper == "env" && exists name, value :: IsName(name) && token == name + "=" + value
  {
    if '=' in token {
      var name, value := SplitAtEquals(token);
      NameBeforeEquals(name, value);
      assert IsName(name) <==> IsAssignment(token);
      if n, v :| IsName(n) && token == n + "=" + v {
        NameHasNoEquals(n);
        NameBeforeEquals(n, v);
      }
    } else {
      forall n: string, v: string ensures token != n + "=" + v {
        assert (n + "=" + v)[|n|] == '=';
      }
    }
  }

  lemma NameHasNoEquals(name: string)
    requires IsName(name)
    ensures '=' !in name
  {}

  /** Stripping goes token by token: an assignment of `env`, an option, and an option with its value are left out. */
  lemma StripSkipsOne(wrapper: string, first: string, rest: seq<string>)
    requires wrapper in {"command", "env", "nohup", "sudo", "time"}
    requires SkippedAssignment(wrapper, first) || (first != "" && first[0] == '-' && !TakesNextToken(wrapper, first))
    ensures Strip([wrapper, first] + rest) == Strip([wrapper] + rest)
  {
    var tokens := [wrapper, first] + rest;
    assert tokens[1] == first && OptionsEnd(wrapper, tokens, 1) == OptionsEnd(wrapper, tokens, 2);
    SameStrip(wrapper, [wrapper, first], rest);
  }

  lemma StripSkipsValue(wrapper: string, first: string, value: string, rest: seq<string>)
    requires wrapper in {"command", "env", "nohup", "sudo", "time"} && first != "" && first[0] == '-' && TakesNextToken(wrapper, first)
    requires !SkippedAssignment(wrapper, first)
    ensures Strip([wrapper, first, value] + rest) == Strip([wrapper] + rest)
  {
    var tokens := [wrapper, first, value] + rest;
    assert tokens[1] == first && OptionsEnd(wrapper, tokens, 1) == OptionsEnd(wrapper, tokens, 3);
    SameStrip(wrapper, [wrapper, first, value], rest);
  }

  lemma SameStrip(wrapper: string, front: seq<string>, rest: seq<string>)
    requires wrapper in {"command", "env", "nohup", "sudo", "time"} && front != [] && front[0] == wrapper
    requires OptionsEnd(wrapper, front + rest, 1) == OptionsEnd(wrapper, front + rest, |front|)
    ensures Strip(front + rest) == Strip([wrapper] + rest)
  {
    OptionsEndShift(wrapper, front, [wrapper], rest, 0);
    var end := OptionsEnd(wrapper, front + rest, |front|) - |front|;
    StripAt(wrapper, front, rest, end);
    assert [wrapper][0] == wrapper;
    StripAt(wrapper, [wrapper], rest, end);
  }

  lemma StripAt(wrapper: string, front: seq<string>, rest: seq<string>, end: nat)
    requires wrapper in {"command", "env", "nohup", "sudo", "time"} && front != [] && front[0] == wrapper && end <= |rest|
    requires OptionsEnd(wrapper, front + rest, 1) == |front| + end
    ensures Strip(front + rest) == if end == |rest| then Stripped(true, []) else Strip(rest[end..])
  {
    assert (front + rest)[|front| + end..] == rest[end..];
  }

  /** Where the options end depends only on the tokens behind. */
  lemma {:induction false} OptionsEndShift(wrapper: string, a: seq<string>, b: seq<string>, rest: seq<string>, k: nat)
    requires k <= |rest|
    ensures OptionsEnd(wrapper, a + rest, |a| + k) - |a| == OptionsEnd(wrapper, b + rest, |b| + k) - |b|
    decreases |rest| - k
  {
    if k < |rest| {
      assert (a + rest)[|a| + k] == rest[k] == (b + rest)[|b| + k];
      if TakesNextToken(wrapper, rest[k]) && !SkippedAssignment(wrapper, rest[k]) && k + 1 < |rest| {
        OptionsEndShift(wrapper, a, b, rest, k + 2);
      }
      OptionsEndShift(wrapper, a, b, rest, k + 1);
    }
  }

  /** A wrapper in front of a command is left out, and nothing else is: no other word is a wrapper. */
  lemma StripDropsWrapper(wrapper: string, command: string, rest: seq<string>)
    requires command !in {"command", "env", "nohup", "sudo", "time"} && (command == "" || command[0] != '-') && !SkippedAssignment(wrapper, command)
    ensures Strip([command] + rest) == Stripped(false, [command] + rest)
    ensures wrapper in {"command", "env", "nohup", "sudo", "time"} ==>
              Strip([wrapper, command] + rest) == Stripped(false, [command] + rest)
              && Strip([wrapper]) == Stripped(true, [])
  {
    if wrapper in {"command", "env", "nohup", "sudo", "time"} {
      var tokens := [wrapper, command] + rest;
      assert OptionsEnd(wrapper, tokens, 1) == 1;
      assert tokens[1..] == [command] + rest;
      assert OptionsEnd(wrapper, [wrapper], 1) == 1;
    }
  }

  // ---------------------------------------------------------------------------
  // Flags and subcommands
  // ---------------------------------------------------------------------------

  /** Some visited command declares the flag. */
  ghost predicate IsDeclared(path: seq<Node>, flag: Flag) {
    exists i :: 0 <= i < |path| && flag in path[i].flags
  }

  lemma {:induction false} FlagsAreDeclared(path: seq<Node>, flag: Flag)
    ensures flag in FlagsOf(path) <==> IsDeclared(path, flag)
  {
    if path != [] {
      var n := |path| - 1;
      FlagsAreDeclared(path[..n], flag);
      assert IsDeclared(path, flag) <==> IsDeclared(path[..n], flag) || flag in path[n].flags by {
        if i :| 0 <= i < |path| && flag in path[i].flags {
          assert i < n ==> path[..n][i] == path[i];
        }
      }
    }
  }

  /** How many values a flag takes, and how many are still to come behind a token for it: a value behind an equals sign
      counts as one. */
  lemma OwedValues(flag: Flag, token: string)
    ensures var takes := if flag.arg != None then 1 else |flag.args|;
            RemainingCount(flag, token) == Max(0, if '=' in token then takes - 1 else takes)
  {}

  /** The name a flag is told by: the first it declares. */
  function FirstName(flag: Flag): string {
    if |flag.names| > 0 then flag.names[0] else ""
  }

  /** The flag, and no other flag told by the same name before it. */
  ghost predicate IsFirstDeclared(flags: seq<Flag>, flag: Flag) {
    exists k :: 0 <= k < |flags| && flags[k] == flag && NoneNamed(flags, k, FirstName(flag))
  }

  ghost predicate NoneNamed(flags: seq<Flag>, k: nat, name: string)
    requires k <= |flags|
  {
    forall i :: 0 <= i < k ==> FirstName(flags[i]) != name
  }

  lemma FirstDeclaredIsFirst(flags: seq<Flag>, flag: Flag)
    ensures IsFirstOfName(flags, flag) <==> IsFirstDeclared(flags, flag)
  {
    forall k | 0 <= k < |flags| ensures NoneNamed(flags, k, FirstName(flag)) <==> !HasName(flags[..k], PrimaryName(flag)) {
      assert forall i :: 0 <= i < k ==> flags[..k][i] == flags[i] && PrimaryName(flags[i]) == FirstName(flags[i]);
    }
  }

  /** Flags of every visited command are recognised, by any of their names and before subcommands; of the flags with one
      primary name the first declared counts. */
  lemma RoleExactly(path: seq<Node>, token: string)
    requires path != []
    ensures var role, last := RoleOn(path, token), path[|path| - 1];
            && (role.FlagToken? <==> exists flag :: IsFirstDeclared(FlagsOf(path), flag) && BeforeEquals(token) in flag.names)
            && (role.FlagToken? ==> IsDeclared(path, role.flag) && IsFirstDeclared(FlagsOf(path), role.flag)
                                    && BeforeEquals(token) in role.flag.names)
            && (role.Subcommand? <==> !role.FlagToken? && exists node :: node in last.subcommands && token in node.names)
            && (role.Subcommand? ==> IsFirstNamed(last.subcommands, role.node, token))
            && (role.Positional? <==> !role.FlagToken? && !role.Subcommand?)
  {
    var flags := AvailableFlags(path);
    forall flag ensures flag in flags <==> IsFirstDeclared(FlagsOf(path), flag) {
      FirstFlagWins(FlagsOf(path), flag);
      FirstDeclaredIsFirst(FlagsOf(path), flag);
    }
    forall flag | flag in flags ensures IsDeclared(path, flag) {
      FlagsAreDeclared(path, flag);
    }
    FirstNode(path[|path| - 1].subcommands, token);
  }

  /** The first of the commands with the name. */
  ghost predicate IsFirstNamed(nodes: seq<Node>, node: Node, token: string) {
    exists i :: 0 <= i < |nodes| && nodes[i] == node && token in node.names && forall j :: 0 <= j < i ==> token !in nodes[j].names
  }

  lemma {:induction false} FirstNode(nodes: seq<Node>, token: string)
    ensures FindNode(nodes, token).Some? ==> IsFirstNamed(nodes, FindNode(nodes, token).value, token)
  {
    if nodes != [] && token !in nodes[0].names && FindNode(nodes, token).Some? {
      var node := FindNode(nodes, token).value;
      FirstNode(nodes[1..], token);
      var i :| 0 <= i < |nodes[1..]| && nodes[1..][i] == node && forall j :: 0 <= j < i ==> token !in nodes[1..][j].names;
      forall j | 0 <= j < i + 1 ensures token !in nodes[j].names {
        assert j > 0 ==> nodes[j] == nodes[1..][j - 1];
      }
      assert nodes[i + 1] == node;
    }
  }

  // ---------------------------------------------------------------------------
  // The context
  // ---------------------------------------------------------------------------

  /** What completion is told about a line. After wrappers alone a command is awaited; a line that is empty, or whose
      command the catalogue does not know, has no context; any other has the walk from the command's root, with the
      last command it visits. */
  lemma ContextExactly(tokens: seq<string>, prefix: string, load: string -> Option<Node>)
    ensures var context, stripped := CatalogOf(tokens, prefix, load), Strip(tokens);
            if stripped.tokens == [] then
              context == if stripped.awaitingCommand then Some(CatalogContext(None, None, [], true, 0)) else None
            else
              match load(stripped.tokens[0])
              case None => context == None
              case Some(root) =>
                var walk := WalkDown([root], stripped.tokens[1..], 0, prefix);
                && walk.visited != [] && walk.visited[0] == root
                && context == Some(CatalogContext(Some(walk.visited[|walk.visited| - 1]), walk.awaiting, walk.visited, false,
                                                  walk.positional))
  {
    var stripped := Strip(tokens);
    if stripped.tokens != [] && load(stripped.tokens[0]).Some? {
      WalkIsRoles(load(stripped.tokens[0]).value, stripped.tokens[1..], prefix);
    }
  }
}
