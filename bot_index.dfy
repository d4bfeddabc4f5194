/** The entry point of bot/index.js: the startup check of the required environment, the
    registry of prefix commands loaded from the commands directory, the parse and dispatch of
    chat messages, and the argument and status mapping of `runSyncStructure`. */
module BotIndex {
  import opened JsSemantics
  import opened SyncCommand

  // ---------------------------------------------------------------------------------------
  // Strings: `trim` and `split(/\s+/)`

  /** No character of `t` is whitespace. */
  predicate NoSpace(t: string) {
    forall j :: 0 <= j < |t| ==> !IsSpace(t[j])
  }

  /** Every character of `t` is whitespace (the empty string included). */
  predicate AllSpace(t: string) {
    forall j :: 0 <= j < |t| ==> IsSpace(t[j])
  }

  /** `trimStart`: drop the leading whitespace. */
  function TrimStart(s: string): string {
    if s != [] && IsSpace(s[0]) then TrimStart(s[1..]) else s
  }

  /** `trimEnd`: drop the trailing whitespace. */
  function TrimEnd(s: string): string {
    if s != [] && IsSpace(s[|s| - 1]) then TrimEnd(s[..|s| - 1]) else s
  }

  /** `trim`. */
  function Trim(s: string): string {
    TrimEnd(TrimStart(s))
  }

  /** What is left after `trimStart` begins with a non-space and ends where the input ends;
      nothing is left exactly when the input is all whitespace. */
  lemma {:induction false} TrimStartShape(s: string)
    ensures var r := TrimStart(s);
            && (r == [] || !IsSpace(r[0]))
            && (r == [] <==> AllSpace(s))
            && (r != [] ==> r[|r| - 1] == s[|s| - 1])
    decreases |s|
  {
    if s != [] && IsSpace(s[0]) {
      TrimStartShape(s[1..]);
      assert forall j :: 1 <= j < |s| ==> s[j] == s[1..][j - 1];
    }
  }

  /** The mirror image for `trimEnd`. */
  lemma {:induction false} TrimEndShape(s: string)
    ensures var r := TrimEnd(s);
            && (r == [] || !IsSpace(r[|r| - 1]))
            && (r == [] <==> AllSpace(s))
            && (r != [] ==> r[0] == s[0])
    decreases |s|
  {
    if s != [] && IsSpace(s[|s| - 1]) {
      var init := s[..|s| - 1];
      TrimEndShape(init);
      assert forall j :: 0 <= j < |init| ==> s[j] == init[j];
    }
  }

  /** `trim` leaves whitespace on neither end, and nothing exactly for all-whitespace input. */
  lemma TrimShape(s: string)
    ensures var r := Trim(s);
            && (r == [] <==> AllSpace(s))
            && (r == [] || (!IsSpace(r[0]) && !IsSpace(r[|r| - 1])))
  {
    TrimStartShape(s);
    TrimEndShape(TrimStart(s));
  }

  /** The pieces of `s` between maximal runs of whitespace, as `s.split(/\s+/)` returns them:
      a leading (trailing) empty piece when `s` begins (ends) with whitespace, and `[""]` for
      the empty string. */
  function SplitWs(s: string): (r: seq<string>)
    ensures |r| >= 1
  {
    if s == [] then [""]
    else
      var rest := SplitWs(s[1..]);
      if !IsSpace(s[0]) then [[s[0]] + rest[0]] + rest[1..]
      else if s[1..] != [] && IsSpace(s[1]) then rest
      else [""] + rest
  }

  /** Unfolding `SplitWs` one character. */
  lemma SplitCons(s: string)
    requires s != []
    ensures var rest := SplitWs(s[1..]);
            SplitWs(s) == if !IsSpace(s[0]) then [[s[0]] + rest[0]] + rest[1..]
                          else if s[1..] != [] && IsSpace(s[1]) then rest
                          else [""] + rest
  {
  }

  /** The pieces hold no whitespace. */
  lemma {:induction false} SplitNoSpace(s: string)
    ensures forall i :: 0 <= i < |SplitWs(s)| ==> NoSpace(SplitWs(s)[i])
    decreases |s|
  {
    if s != [] {
      var rest := SplitWs(s[1..]);
      SplitNoSpace(s[1..]);
      SplitCons(s);
      if !IsSpace(s[0]) {
        var head := [s[0]] + rest[0];
        assert NoSpace(head) by {
          assert forall j :: 1 <= j < |head| ==> head[j] == rest[0][j - 1];
        }
      }
    }
  }

  /** There is one piece exactly when `s` has no whitespace. */
  lemma {:induction false} SplitSingle(s: string)
    ensures NoSpace(s) <==> |SplitWs(s)| == 1
    decreases |s|
  {
    if s != [] {
      SplitSingle(s[1..]);
      SplitCons(s);
      assert NoSpace(s) <==> !IsSpace(s[0]) && NoSpace(s[1..]) by {
        assert forall j :: 1 <= j < |s| ==> s[j] == s[1..][j - 1];
      }
    }
  }

  /** The first piece is empty exactly when `s` begins with whitespace (or is empty). */
  lemma SplitFirst(s: string)
    ensures SplitWs(s)[0] == [] <==> s == [] || IsSpace(s[0])
  {
    if s != [] {
      SplitCons(s);
      if IsSpace(s[0]) && s[1..] != [] && IsSpace(s[1]) {
        SplitFirst(s[1..]);
      }
    }
  }

  /** The last piece is empty exactly when `s` ends with whitespace (or is empty). */
  lemma {:induction false} SplitLast(s: string)
    ensures var r := SplitWs(s); r[|r| - 1] == [] <==> s == [] || IsSpace(s[|s| - 1])
    decreases |s|
  {
    if s != [] {
      var t := s[1..];
      var rest := SplitWs(t);
      SplitCons(s);
      if t == [] {
        assert rest == [""];
      } else {
        SplitLast(t);
        assert s[|s| - 1] == t[|t| - 1];
        if !IsSpace(s[0]) {
          SplitSingle(t);
          if |rest| == 1 {
            assert !IsSpace(t[|t| - 1]);
          } else {
            assert SplitWs(s)[|SplitWs(s)| - 1] == rest[|rest| - 1];
          }
        } else if !IsSpace(s[1]) {
          assert SplitWs(s)[|SplitWs(s)| - 1] == rest[|rest| - 1];
        }
      }
    }
  }

  /** Only the first and the last piece may be empty. */
  lemma {:induction false} SplitInterior(s: string)
    ensures var r := SplitWs(s); forall i :: 0 < i < |r| - 1 ==> r[i] != []
    decreases |s|
  {
    if s != [] {
      var rest := SplitWs(s[1..]);
      SplitInterior(s[1..]);
      SplitCons(s);
      SplitFirst(s[1..]);
      if !IsSpace(s[0]) {
        assert forall i :: 0 < i < |rest| ==> SplitWs(s)[i] == rest[i];
      } else if !(s[1..] != [] && IsSpace(s[1])) {
        assert forall i :: 0 < i < |rest| + 1 ==> SplitWs(s)[i] == rest[i - 1];
      }
    }
  }

  /** All of the above. */
  lemma SplitShape(s: string)
    ensures var r := SplitWs(s);
            && (forall i :: 0 <= i < |r| ==> NoSpace(r[i]))
            && (NoSpace(s) <==> |r| == 1)
            && (r[0] == [] <==> s == [] || IsSpace(s[0]))
            && (r[|r| - 1] == [] <==> s == [] || IsSpace(s[|s| - 1]))
            && (forall i :: 0 < i < |r| - 1 ==> r[i] != [])
  {
    SplitNoSpace(s);
    SplitSingle(s);
    SplitFirst(s);
    SplitLast(s);
    SplitInterior(s);
  }

  /** A word without whitespace in front of anything glues onto the first piece. */
  lemma {:induction false} SplitAfterWord(w: string, b: string)
    requires w != [] && NoSpace(w)
    ensures SplitWs(w + b) == [w + SplitWs(b)[0]] + SplitWs(b)[1..]
    decreases |w|
  {
    assert (w + b)[1..] == w[1..] + b;
    assert (w + b)[0] == w[0] && !IsSpace(w[0]);
    if |w| > 1 {
      assert NoSpace(w[1..]) by {
        assert forall j :: 0 <= j < |w| - 1 ==> w[1..][j] == w[j + 1];
      }
      SplitAfterWord(w[1..], b);
      var x := SplitWs(b);
      assert SplitWs(w + b) == [[w[0]] + (w[1..] + x[0])] + x[1..];
      assert [w[0]] + (w[1..] + x[0]) == w + x[0];
    } else {
      assert w[1..] + b == b && w == [w[0]];
    }
  }

  /** A run of whitespace in front of a word becomes one empty piece. */
  lemma {:induction false} SplitAfterSpace(sep: string, b: string)
    requires sep != [] && AllSpace(sep)
    requires b != [] && !IsSpace(b[0])
    ensures SplitWs(sep + b) == [""] + SplitWs(b)
    decreases |sep|
  {
    assert (sep + b)[1..] == sep[1..] + b;
    if |sep| > 1 {
      SplitAfterSpace(sep[1..], b);
      assert (sep + b)[1] == sep[1];
    } else {
      assert sep[1..] + b == b;
    }
  }

  /** The first character of the joined words is the first word's. */
  lemma JoinBounds(ws: seq<string>, sep: string)
    requires |ws| >= 1 && forall i :: 0 <= i < |ws| ==> ws[i] != []
    ensures var j := Join(ws, sep); j != [] && j[0] == ws[0][0]
  {
  }

  /** The last character of the joined words is the last word's. */
  lemma {:induction false} JoinLast(ws: seq<string>, sep: string)
    requires |ws| >= 1 && forall i :: 0 <= i < |ws| ==> ws[i] != []
    ensures var j := Join(ws, sep); j != [] && j[|j| - 1] == ws[|ws| - 1][|ws[|ws| - 1]| - 1]
    decreases |ws|
  {
    if |ws| > 1 {
      JoinLast(ws[1..], sep);
    }
  }

  /** Splitting undoes joining: words without whitespace, joined by runs of whitespace, split
      back into the same words. */
  lemma {:induction false} SplitJoin(ws: seq<string>, sep: string)
    requires |ws| >= 1 && forall i :: 0 <= i < |ws| ==> ws[i] != [] && NoSpace(ws[i])
    requires sep != [] && AllSpace(sep)
    ensures SplitWs(Join(ws, sep)) == ws
    decreases |ws|
  {
    if |ws| == 1 {
      SplitAfterWord(ws[0], []);
      assert ws[0] + [] == ws[0];
    } else {
      var tail := Join(ws[1..], sep);
      SplitJoin(ws[1..], sep);
      JoinBounds(ws[1..], sep);
      SplitAfterSpace(sep, tail);
      SplitAfterWord(ws[0], sep + tail);
      assert ws[0] + sep + tail == ws[0] + (sep + tail);
      assert SplitWs(sep + tail) == [""] + ws[1..];
      assert ws[0] + "" == ws[0];
      assert ws == [ws[0]] + ws[1..];
    }
  }

  // ---------------------------------------------------------------------------------------
  // Message parse and dispatch

  const PREFIX := "!"

  /** A command invocation: the command's name and its arguments. */
  datatype Invocation = Invocation(name: string, args: seq<string>)

  /** The `MessageCreate` handler's parse: a message from a person that starts with `!` names a
      command by its first word, lower-cased; the other words are its arguments, case kept.
      Nothing is invoked for a bot's message, a message without the prefix, or one with
      nothing but whitespace after it. */
  function Parse(content: string, fromBot: bool): (r: Option<Invocation>)
    ensures r.None? <==> fromBot || !(PREFIX <= content) || AllSpace(content[|PREFIX|..])
    ensures r.Some? ==> r.value.name != [] && NoSpace(r.value.name)
                        && forall i :: 0 <= i < |r.value.args| ==> r.value.args[i] != [] && NoSpace(r.value.args[i])
  {
    if !(PREFIX <= content) || fromBot then None
    else
      var rest := content[|PREFIX|..];
      TrimShape(rest);
      SplitShape(Trim(rest));
      var words := SplitWs(Trim(rest));
      var name := Lower(words[0]);
      if name == [] then None
      else
        assert NoSpace(name) by {
          forall j | 0 <= j < |name| ensures !IsSpace(name[j]) {
            assert !IsSpace(words[0][j]);
          }
        }
        Some(Invocation(name, words[1..]))
  }

  /** The parse recovers what was typed: `!`, optional whitespace, words separated by runs of
      whitespace and optional whitespace again give the first word, lower-cased, as the name
      and the remaining words, unchanged, as the arguments. */
  lemma ParseWords(lead: string, ws: seq<string>, sep: string, trail: string)
    requires AllSpace(lead) && AllSpace(trail)
    requires |ws| >= 1 && forall i :: 0 <= i < |ws| ==> ws[i] != [] && NoSpace(ws[i])
    requires sep != [] && AllSpace(sep)
    ensures Parse(PREFIX + (lead + Join(ws, sep) + trail), false) == Some(Invocation(Lower(ws[0]), ws[1..]))
  {
    var rest := lead + Join(ws, sep) + trail;
    WordsOf(lead, ws, sep, trail);
    ParseAfterPrefix(rest);
    assert |Lower(ws[0])| == |ws[0]| > 0;
  }

  /** A person's message that starts with the prefix is parsed from the words after it. */
  lemma ParseAfterPrefix(rest: string)
    ensures var words := SplitWs(Trim(rest));
            Parse(PREFIX + rest, false) == if Lower(words[0]) == [] then None else Some(Invocation(Lower(words[0]), words[1..]))
  {
    assert (PREFIX + rest)[|PREFIX|..] == rest;
  }

  /** The words of the text after the prefix: trimmed, then split. */
  lemma WordsOf(lead: string, ws: seq<string>, sep: string, trail: string)
    requires AllSpace(lead) && AllSpace(trail)
    requires |ws| >= 1 && forall i :: 0 <= i < |ws| ==> ws[i] != [] && NoSpace(ws[i])
    requires sep != [] && AllSpace(sep)
    ensures SplitWs(Trim(lead + Join(ws, sep) + trail)) == ws
  {
    JoinBounds(ws, sep);
    JoinLast(ws, sep);
    TrimAround(lead, Join(ws, sep), trail);
    SplitJoin(ws, sep);
  }

  /** Trimming removes exactly the whitespace around a string with no whitespace at its ends. */
  lemma TrimAround(lead: string, m: string, trail: string)
    requires AllSpace(lead) && AllSpace(trail)
    requires m != [] && !IsSpace(m[0]) && !IsSpace(m[|m| - 1])
    ensures Trim(lead + m + trail) == m
  {
    TrimStartLead(lead, m + trail);
    assert lead + m + trail == lead + (m + trail);
    TrimEndTrail(m, trail);
  }

  lemma {:induction false} TrimStartLead(lead: string, b: string)
    requires AllSpace(lead) && b != [] && !IsSpace(b[0])
    ensures TrimStart(lead + b) == b
    decreases |lead|
  {
    if lead != [] {
      assert (lead + b)[1..] == lead[1..] + b;
      TrimStartLead(lead[1..], b);
    } else {
      assert lead + b == b;
    }
  }

  lemma {:induction false} TrimEndTrail(m: string, trail: string)
    requires AllSpace(trail) && m != [] && !IsSpace(m[|m| - 1])
    ensures TrimEnd(m + trail) == m
    decreases |trail|
  {
    if trail != [] {
      assert (m + trail)[..|m + trail| - 1] == m + trail[..|trail| - 1];
      TrimEndTrail(m, trail[..|trail| - 1]);
    } else {
      assert m + trail == m;
    }
  }

  /** What `import` of a command file yields: its `data.name`, and whether `execute` is a
      function. */
  datatype CommandModule = CommandModule(name: Option<string>, hasExecute: bool)

  /** A file of the commands directory and what importing it yields: None when the import
      throws (a syntax error, a failing top-level statement). */
  datatype CommandFile = CommandFile(file: string, exports: Option<CommandModule>)

  /** The file is registered: a `.js` file that imports, with a named command and an execute
      handler. */
  predicate Loadable(f: CommandFile) {
    EndsWithJs(f.file) && f.exports.Some? && Truthy(f.exports.value.name) && f.exports.value.hasExecute
  }

  /** Importing the file throws, which ends `registerCommands` with a rejection. */
  predicate Fails(f: CommandFile) {
    EndsWithJs(f.file) && f.exports.None?
  }

  /** The files the loop gets through: all of them up to the first one whose import throws. */
  function Loaded(files: seq<CommandFile>): (r: seq<CommandFile>)
    ensures r <= files
    ensures forall i :: 0 <= i < |r| ==> !Fails(r[i])
    ensures |r| < |files| ==> Fails(files[|r|])
    decreases |files|
  {
    if files == [] || Fails(files[0]) then [] else [files[0]] + Loaded(files[1..])
  }

  /** `file.endsWith('.js')`. */
  predicate EndsWithJs(file: string) {
    |file| >= 3 && file[|file| - 3..] == ".js"
  }

  /** The handler for a message: the module registered under the parsed name, and the
      arguments; nothing for an unparsed message or an unknown name. */
  function Dispatch(commands: map<string, CommandModule>, content: string, fromBot: bool)
    : (r: Option<(CommandModule, seq<string>)>)
    ensures r.Some? <==> Parse(content, fromBot).Some? && Parse(content, fromBot).value.name in commands
    ensures r.Some? ==> r.value == (commands[Parse(content, fromBot).value.name], Parse(content, fromBot).value.args)
  {
    match Parse(content, fromBot)
    case None => None
    case Some(inv) => if inv.name in commands then Some((commands[inv.name], inv.args)) else None
  }

  /** `client.commands` after the files were loaded in order into `commands`: each loadable
      file's module under its name, a later file replacing an earlier one of the same name. */
  function Registered(commands: map<string, CommandModule>, files: seq<CommandFile>): map<string, CommandModule>
    decreases |files|
  {
    if files == [] then commands
    else
      var before := Registered(commands, files[..|files| - 1]);
      var f := files[|files| - 1];
      if Loadable(f) then before[f.exports.value.name.value := f.exports.value] else before
  }

  /** A name is registered exactly when it was there before or a loadable file carries it. */
  lemma {:induction false} RegisteredNames(commands: map<string, CommandModule>, files: seq<CommandFile>)
    ensures forall n :: n in Registered(commands, files) <==>
              n in commands || exists i :: 0 <= i < |files| && Loadable(files[i]) && files[i].exports.value.name == Some(n)
    decreases |files|
  {
    if files != [] {
      var init := files[..|files| - 1];
      RegisteredNames(commands, init);
      assert forall i :: 0 <= i < |init| ==> init[i] == files[i];
    }
  }

  /** What a file registers stays unless a later loadable file carries the same name. */
  lemma {:induction false} RegisteredLastWins(commands: map<string, CommandModule>, files: seq<CommandFile>, i: int)
    requires 0 <= i < |files| && Loadable(files[i]) && LastNamed(files, i)
    ensures var n := files[i].exports.value.name.value;
            n in Registered(commands, files) && Registered(commands, files)[n] == files[i].exports.value
    decreases |files|
  {
    if i < |files| - 1 {
      var init := files[..|files| - 1];
      assert LastNamed(init, i) by {
        assert forall j :: i < j < |init| ==> init[j] == files[j];
      }
      assert init[i] == files[i];
      RegisteredLastWins(commands, init, i);
    }
  }

  /** A newly registered name holds a module of that name with an execute handler. */
  lemma {:induction false} RegisteredWellFormed(commands: map<string, CommandModule>, files: seq<CommandFile>)
    ensures forall n :: n in Registered(commands, files) && n !in commands ==>
              Registered(commands, files)[n].name == Some(n) && Registered(commands, files)[n].hasExecute
    decreases |files|
  {
    if files != [] {
      RegisteredWellFormed(commands, files[..|files| - 1]);
    }
  }

  /** No loadable file after the `i`-th carries its name. */
  predicate LastNamed(files: seq<CommandFile>, i: int)
    requires 0 <= i < |files| && Loadable(files[i])
  {
    forall j :: i < j < |files| ==> !(Loadable(files[j]) && files[j].exports.value.name == files[i].exports.value.name)
  }

  class Client {
    /** `client.commands`: the prefix commands by name. */
    var commands: map<string, CommandModule>

    constructor()
      ensures commands == map[]
    {
      commands := map[];
    }

    /** `registerCommands`: load every file of the commands directory in order and keep the
        loadable ones; an import that throws ends the loop, and `ok` is false for the rejected
        promise, which the top-level `await` turns into a failed startup. */
    method RegisterCommands(files: seq<CommandFile>) returns (ok: bool)
      modifies this
      ensures ok <==> Loaded(files) == files
      ensures commands == Registered(old(commands), Loaded(files))
    {
      for k := 0 to |files|
        invariant commands == Registered(old(commands), files[..k])
        invariant forall i :: 0 <= i < k ==> !Fails(files[i])
      {
        assert files[..k + 1][..k] == files[..k];
        var f := files[k];
        if !EndsWithJs(f.file) {
          continue;
        }
        if f.exports.None? {
          LoadedUpTo(files, k);
          return false;
        }
        var m := f.exports.value;
        if !Truthy(m.name) || !m.hasExecute {
          continue;
        }
        commands := commands[m.name.value := m];
      }
      LoadedUpTo(files, |files|);
      assert files[..|files|] == files;
      ok := true;
    }
  }

  /** With no failing import before `k`, the loop gets through exactly the first `k` files,
      when the `k`-th fails or there is none. */
  lemma LoadedUpTo(files: seq<CommandFile>, k: int)
    requires 0 <= k <= |files| && forall i :: 0 <= i < k ==> !Fails(files[i])
    requires k < |files| ==> Fails(files[k])
    ensures Loaded(files) == files[..k]
  {
  }

  // ---------------------------------------------------------------------------------------
  // Startup

  /** The keys that must be set, in the order they are reported. */
  const REQUIRED_ENV: seq<string> := ["DISCORD_TOKEN", "CELO_RPC", "FLB_TOKEN_CONTRACT", "FLB_ENGINE_CONTRACT",
                                      "FLB_HEALTHIDNFT_CONTRACT", "ADMIN_API_KEY", "WEBHOOK_SECRET", "GUILD_ID"]

  const MISSING_ENV := "Missing required environment variables: "

  /** `process.env[key]`: unset keys read as absent. */
  function Env(env: map<string, string>, key: string): Option<string> {
    if key in env then Some(env[key]) else None
  }

  /** The keys that are unset or empty, in their declared order. */
  function Missing(keys: seq<string>, env: map<string, string>): (r: seq<string>)
    ensures |r| <= |keys|
  {
    if keys == [] then []
    else (if Truthy(Env(env, keys[0])) then [] else [keys[0]]) + Missing(keys[1..], env)
  }

  /** A key is reported exactly when it is required and unset or empty. */
  lemma {:induction false} MissingMembers(keys: seq<string>, env: map<string, string>)
    ensures forall k :: k in Missing(keys, env) <==> k in keys && !Truthy(Env(env, k))
    decreases |keys|
  {
    if keys != [] {
      MissingMembers(keys[1..], env);
      assert forall k :: k in keys <==> k == keys[0] || k in keys[1..] by {
        assert keys == [keys[0]] + keys[1..];
      }
    }
  }

  /** The filter keeps the declared order: the missing keys of two lists are those of the
      first followed by those of the second. */
  lemma {:induction false} MissingAppend(a: seq<string>, b: seq<string>, env: map<string, string>)
    ensures Missing(a + b, env) == Missing(a, env) + Missing(b, env)
    decreases |a|
  {
    if a == [] {
      assert a + b == b;
    } else {
      var head := if Truthy(Env(env, a[0])) then [] else [a[0]];
      assert a == [a[0]] + a[1..];
      assert a + b == [a[0]] + (a[1..] + b);
      calc {
        Missing(a + b, env);
      == { MissingCons(a[0], a[1..] + b, env); }
        head + Missing(a[1..] + b, env);
      == { MissingAppend(a[1..], b, env); }
        head + (Missing(a[1..], env) + Missing(b, env));
      == { assert head + (Missing(a[1..], env) + Missing(b, env)) == (head + Missing(a[1..], env)) + Missing(b, env); }
        (head + Missing(a[1..], env)) + Missing(b, env);
      == { MissingCons(a[0], a[1..], env); }
        Missing(a, env) + Missing(b, env);
      }
    }
  }

  lemma MissingCons(k: string, ks: seq<string>, env: map<string, string>)
    ensures Missing([k] + ks, env) == (if Truthy(Env(env, k)) then [] else [k]) + Missing(ks, env)
  {
    assert ([k] + ks)[1..] == ks;
  }

  /** The startup check: fails, naming the missing keys joined by ", " in declared order,
      exactly when some required key is unset or empty. */
  function StartupError(env: map<string, string>): (err: Option<string>)
    ensures err.None? <==> forall k :: k in REQUIRED_ENV ==> Truthy(Env(env, k))
    ensures err.Some? ==> err.value == MISSING_ENV + Join(Missing(REQUIRED_ENV, env), ", ")
  {
    var missing := Missing(REQUIRED_ENV, env);
    MissingMembers(REQUIRED_ENV, env);
    if |missing| > 0 then
      assert missing[0] in missing;
      Some(MISSING_ENV + Join(missing, ", "))
    else
      assert forall k :: k in REQUIRED_ENV ==> Truthy(Env(env, k)) by {
        forall k | k in REQUIRED_ENV ensures Truthy(Env(env, k)) {
          assert k !in missing;
        }
      }
      None
  }

  // ---------------------------------------------------------------------------------------
  // runSyncStructure

  /** The arguments passed to the sync command: `['dry']` or `['']`. */
  function SyncArgs(dry: bool): (args: seq<string>)
    ensures |args| == 1
    ensures IsDry(args) <==> dry
  {
    [if dry then "dry" else ""]
  }

  /** The channel the sync reports to: `ANNOUNCE_CHANNEL_ID`, else `DONATIONS_CHANNEL_ID`. */
  function ReportChannel(announce: Option<string>, donations: Option<string>): (r: Option<string>)
    ensures r.Some? <==> Truthy(announce) || Truthy(donations)
    ensures Truthy(announce) ==> r == announce
    ensures !Truthy(announce) && Truthy(donations) ==> r == donations
  {
    if Truthy(announce) then announce else if Truthy(donations) then donations else None
  }

  /** What `runSyncStructure` returns: a status, or the error it rethrows. */
  datatype SyncRun = Reported(status: string) | Threw

  /** `runSyncStructure({dry})`. Without a report channel the command is handed a message
      with no `reply`, whose first use throws; `executed` is the command's outcome, None when
      it threw. Any outcome the command returns, a refusal included, is reported as done. */
  function RunSyncStructure(dry: bool, announce: Option<string>, donations: Option<string>,
                            executed: Option<Outcome>): (r: SyncRun)
    ensures r.Reported? <==> ReportChannel(announce, donations).Some? && executed.Some?
    ensures r.Reported? ==> (r.status == "dry-run" <==> dry) && (r.status == "applied" <==> !dry)
  {
    if ReportChannel(announce, donations).None? || executed.None? then Threw
    else Reported(if dry then "dry-run" else "applied")
  }
}
