/**
 * The command front end of `utils/experiment.py`: the closed set of
 * actions with their argument signatures, the split of the command-line
 * tokens into positional and `key=value` arguments, and the check that
 * reports the first missing required argument.
 */
module Frontend {
  import opened Wrappers
  import opened Text

  /** One action per `ExperimentManager.handle_*` method. */
  datatype Action =
    | Help | List | New | Schedule | CountAvailableMachines
    | MachineCronjob | AllocateIpaddr | AllocateEggname | Delta | Timeout

  /** The action's key in `ARGUMENTS`, the suffix of its `handle_` method. */
  function ActionName(a: Action): string
  {
    match a
    case Help => "help"
    case List => "list"
    case New => "new"
    case Schedule => "schedule"
    case CountAvailableMachines => "count_available_machines"
    case MachineCronjob => "machine_cronjob"
    case AllocateIpaddr => "allocate_ipaddr"
    case AllocateEggname => "allocate_eggname"
    case Delta => "delta"
    case Timeout => "timeout"
  }

  /** `ARGUMENTS[action].split()`: required names, then `|`, then optional names. */
  function ArgumentWords(a: Action): seq<string>
  {
    match a
    case Help => ["action"]
    case List => []
    case New => ["name", "path", "|", "timeout", "delta", "tags", "options"]
    case Schedule => ["name", "|", "delta", "timeout"]
    case CountAvailableMachines => ["|", "verbose"]
    case MachineCronjob => []
    case AllocateIpaddr => ["|", "verbose"]
    case AllocateEggname => ["|", "verbose"]
    case Delta => ["name", "|", "delta"]
    case Timeout => ["name", "|", "timeout"]
  }

  /**
   * `ARGUMENTS[action]`, the signature string: the words above joined by
   * single spaces (`"name path | timeout delta tags options"` for `new`).
   */
  function Signature(a: Action): string
  {
    Join(ArgumentWords(a), ' ')
  }

  /** Splitting each signature string gives back its words, so `check_arguments` sees them in order. */
  lemma SignatureWords(a: Action)
    ensures Words(Signature(a)) == ArgumentWords(a)
  {
    var ws := ArgumentWords(a);
    assert forall k :: 0 <= k < |ws| ==> ws[k] != [] && NoSpace(ws[k]);
    WordsJoin(ws);
  }

  /** `s.replace("-", "_")`. */
  function Underscored(s: string): (r: string)
    ensures |r| == |s| && forall i :: 0 <= i < |s| ==> r[i] == if s[i] == '-' then '_' else s[i]
    ensures '-' !in r
    ensures '-' !in s ==> r == s
  {
    seq(|s|, i requires 0 <= i < |s| => if s[i] == '-' then '_' else s[i])
  }

  /** The inverse spelling: `s.replace("_", "-")`, as the cron script writes the actions. */
  function Dashed(s: string): (r: string)
    ensures |r| == |s| && forall i :: 0 <= i < |s| ==> r[i] == if s[i] == '_' then '-' else s[i]
  {
    seq(|s|, i requires 0 <= i < |s| => if s[i] == '_' then '-' else s[i])
  }

  /** `hasattr(em, "handle_" + action.replace("-", "_"))`, as a lookup in the closed set of actions. */
  function LookupAction(name: string): Option<Action>
  {
    var n := Underscored(name);
    if n == "help" then Some(Help)
    else if n == "list" then Some(List)
    else if n == "new" then Some(New)
    else if n == "schedule" then Some(Schedule)
    else if n == "count_available_machines" then Some(CountAvailableMachines)
    else if n == "machine_cronjob" then Some(MachineCronjob)
    else if n == "allocate_ipaddr" then Some(AllocateIpaddr)
    else if n == "allocate_eggname" then Some(AllocateEggname)
    else if n == "delta" then Some(Delta)
    else if n == "timeout" then Some(Timeout)
    else None
  }

  /** Every action is found under its own name and under its dashed spelling. */
  lemma LookupActionName(a: Action)
    ensures LookupAction(ActionName(a)) == Some(a)
    ensures LookupAction(Dashed(ActionName(a))) == Some(a)
  {
    var n := ActionName(a);
    assert '-' !in n;
    assert Underscored(n) == n;
    assert Underscored(Dashed(n)) == n;
  }

  /** A name is found only when, with dashes read as underscores, it is an action's own name. */
  lemma LookupActionSound(name: string)
    requires LookupAction(name).Some?
    ensures Underscored(name) == ActionName(LookupAction(name).value)
  {
  }

  /** A keyword argument's value: `values.get(v.strip(), v.strip())`. */
  datatype ArgValue = Flag(b: bool) | Str(s: string)

  function Coerce(v: string): (r: ArgValue)
    ensures r == Flag(true) <==> Strip(Bytes, v) == "true"
    ensures r == Flag(false) <==> Strip(Bytes, v) == "false"
    ensures r.Str? ==> r.s == Strip(Bytes, v)
  {
    var t := Strip(Bytes, v);
    if t == "true" then Flag(true) else if t == "false" then Flag(false) else Str(t)
  }

  /** The positional arguments built by `main`: every token without `=`, stripped, in order. */
  function Positional(tokens: seq<string>): (args: seq<string>)
    ensures |args| <= |tokens|
    ensures forall i :: 0 <= i < |args| ==> '=' !in args[i]
  {
    if tokens == [] then []
    else
      var last := tokens[|tokens| - 1];
      var init := Positional(tokens[..|tokens| - 1]);
      if '=' in last then init else init + [Strip(Bytes, last)]
  }

  /** How `main` reads one token: `k=v` gives the key `k.strip()` and the coerced value. */
  function KeyValue(token: string): Option<(string, ArgValue)>
  {
    match SplitOnce(token, '=')
    case None => None
    case Some((k, v)) => Some((Strip(Bytes, k), Coerce(v)))
  }

  /** The reading of every token, in order. */
  function Entries(tokens: seq<string>): (es: seq<Option<(string, ArgValue)>>)
    ensures |es| == |tokens| && forall i :: 0 <= i < |tokens| ==> es[i] == KeyValue(tokens[i])
  {
    seq(|tokens|, i requires 0 <= i < |tokens| => KeyValue(tokens[i]))
  }

  /** The keyword map the readings build, each `k=v` in turn setting `k`. */
  function KeywordMap(es: seq<Option<(string, ArgValue)>>): map<string, ArgValue>
  {
    if es == [] then map[]
    else
      var kw := KeywordMap(es[..|es| - 1]);
      match es[|es| - 1]
      case None => kw
      case Some((k, v)) => kw[k := v]
  }

  /** The keyword arguments built by `main`. */
  function Keywords(tokens: seq<string>): map<string, ArgValue>
  {
    KeywordMap(Entries(tokens))
  }

  /** The token is `k=v` with `k.strip() == key`. */
  predicate Names(token: string, key: string)
  {
    KeyValue(token).Some? && KeyValue(token).value.0 == key
  }

  /** The argument-splitting loop of `main`. */
  method SplitArguments(tokens: seq<string>) returns (args: seq<string>, kwargs: map<string, ArgValue>)
    ensures args == Positional(tokens) && kwargs == Keywords(tokens)
  {
    ghost var es := Entries(tokens);
    args, kwargs := [], map[];
    var i := 0;
    while i < |tokens|
      invariant 0 <= i <= |tokens|
      invariant args == Positional(tokens[..i]) && kwargs == KeywordMap(es[..i])
    {
      PositionalSnoc(tokens, i);
      KeywordMapSnoc(es, i);
      var arg := tokens[i];
      if '=' in arg {
        var kv := SplitOnce(arg, '=');
        var k, v := kv.value.0, kv.value.1;
        assert es[i] == Some((Strip(Bytes, k), Coerce(v)));
        kwargs := kwargs[Strip(Bytes, k) := Coerce(v)];
      } else {
        assert es[i] == None;
        args := args + [Strip(Bytes, arg)];
      }
      i := i + 1;
    }
    assert tokens[..i] == tokens;
    assert es[..i] == es;
  }

  lemma PositionalSnoc(tokens: seq<string>, i: nat)
    requires i < |tokens|
    ensures Positional(tokens[..i + 1]) ==
      if '=' in tokens[i] then Positional(tokens[..i]) else Positional(tokens[..i]) + [Strip(Bytes, tokens[i])]
  {
    assert tokens[..i + 1][..i] == tokens[..i];
  }

  lemma KeywordMapSnoc(es: seq<Option<(string, ArgValue)>>, i: nat)
    requires i < |es|
    ensures KeywordMap(es[..i + 1]) ==
      match es[i]
      case None => KeywordMap(es[..i])
      case Some((k, v)) => KeywordMap(es[..i])[k := v]
  {
    assert es[..i + 1][..i] == es[..i];
  }

  /** In the readings, a key is set exactly when some reading names it. */
  lemma {:induction false} KeywordMapDomain(es: seq<Option<(string, ArgValue)>>, key: string)
    ensures key in KeywordMap(es) <==> exists i :: 0 <= i < |es| && es[i].Some? && es[i].value.0 == key
  {
    if es != [] {
      var init := es[..|es| - 1];
      KeywordMapDomain(init, key);
      if exists i :: 0 <= i < |init| && init[i].Some? && init[i].value.0 == key {
        var i :| 0 <= i < |init| && init[i].Some? && init[i].value.0 == key;
        assert es[i] == init[i];
      }
      if exists i :: 0 <= i < |es| && es[i].Some? && es[i].value.0 == key {
        var i :| 0 <= i < |es| && es[i].Some? && es[i].value.0 == key;
        if i < |init| {
          assert init[i] == es[i];
        }
      }
    }
  }

  /** In the readings, the last one that names a key gives its value. */
  lemma {:induction false} KeywordMapLastWins(es: seq<Option<(string, ArgValue)>>, i: nat, key: string)
    requires i < |es| && es[i].Some? && es[i].value.0 == key
    requires forall j :: i < j < |es| ==> !(es[j].Some? && es[j].value.0 == key)
    ensures key in KeywordMap(es) && KeywordMap(es)[key] == es[i].value.1
  {
    var init := es[..|es| - 1];
    if i < |es| - 1 {
      forall j | i < j < |init| ensures !(init[j].Some? && init[j].value.0 == key) {
        assert init[j] == es[j];
      }
      assert init[i] == es[i];
      KeywordMapLastWins(init, i, key);
    }
  }

  /** A key is set exactly when some token names it. */
  lemma KeywordsDomain(tokens: seq<string>, key: string)
    ensures key in Keywords(tokens) <==> exists i :: 0 <= i < |tokens| && Names(tokens[i], key)
  {
    var es := Entries(tokens);
    KeywordMapDomain(es, key);
    forall i | 0 <= i < |tokens| ensures Names(tokens[i], key) <==> es[i].Some? && es[i].value.0 == key {
      assert es[i] == KeyValue(tokens[i]);
    }
  }

  /** When a key is named more than once, the last token that names it wins. */
  lemma KeywordsLastWins(tokens: seq<string>, i: nat, key: string)
    requires i < |tokens| && Names(tokens[i], key)
    requires forall j :: i < j < |tokens| ==> !Names(tokens[j], key)
    ensures key in Keywords(tokens)
    ensures Keywords(tokens)[key] == Coerce(SplitOnce(tokens[i], '=').value.1)
  {
    var es := Entries(tokens);
    forall j | i < j < |es| ensures !(es[j].Some? && es[j].value.0 == key) {
      assert !Names(tokens[j], key);
    }
    KeywordMapLastWins(es, i, key);
  }

  /** Tokens with `=` never become positional; the rest keep their order. */
  lemma {:induction false} PositionalAppend(a: seq<string>, b: seq<string>)
    ensures Positional(a + b) == Positional(a) + Positional(b)
    decreases |b|
  {
    if b == [] {
      assert a + b == a;
    } else {
      var b' := b[..|b| - 1];
      PositionalAppend(a, b');
      assert (a + b)[..|a + b| - 1] == a + b';
      assert (a + b)[|a + b| - 1] == b[|b| - 1];
    }
  }

  /** A word of the signature is required: it stands before any `|` and is not `|`. */
  predicate Required(ws: seq<string>, j: int)
  {
    0 <= j < |ws| && "|" !in ws[..j + 1]
  }

  /** `check_arguments`' test: a required word not covered by a positional or a keyword argument. */
  predicate Missing(ws: seq<string>, j: int, positional: nat, keywords: map<string, ArgValue>)
  {
    Required(ws, j) && j >= positional && ws[j] !in keywords
  }

  /** `check_arguments`: the first missing required argument, if any. */
  method CheckArguments(action: Action, args: seq<string>, kwargs: map<string, ArgValue>)
    returns (missing: Option<string>)
    ensures missing.None? <==> forall j :: !Missing(ArgumentWords(action), j, |args|, kwargs)
    ensures missing.Some? ==>
      exists j :: Missing(ArgumentWords(action), j, |args|, kwargs)
               && ArgumentWords(action)[j] == missing.value
               && forall i :: 0 <= i < j ==> !Missing(ArgumentWords(action), i, |args|, kwargs)
  {
    var ws := ArgumentWords(action);
    var opt := false;
    var idx := 0;
    while idx < |ws|
      invariant 0 <= idx <= |ws|
      invariant opt <==> "|" in ws[..idx]
      invariant forall j :: 0 <= j < idx ==> !Missing(ws, j, |args|, kwargs)
    {
      assert ws[..idx + 1] == ws[..idx] + [ws[idx]];
      var arg := ws[idx];
      if arg == "|" {
        opt := true;
        idx := idx + 1;
        continue;
      }
      if !opt && idx >= |args| && arg !in kwargs {
        assert Missing(ws, idx, |args|, kwargs);
        return Some(arg);
      }
      idx := idx + 1;
    }
    return None;
  }

  /** `new` requires exactly `name` and `path`; its other four arguments are optional. */
  lemma NewRequiresNameAndPath()
    ensures forall j :: Required(ArgumentWords(New), j) <==> j == 0 || j == 1
  {
    var ws := ArgumentWords(New);
    forall j | 2 <= j < |ws| ensures !Required(ws, j) {
      assert ws[..j + 1][2] == "|";
    }
    assert ws[..1] == ["name"];
    assert ws[..2] == ["name", "path"];
  }

  /** The actions the cron script runs require nothing, so their `key=value` options always pass. */
  lemma CronActionsRequireNothing(a: Action)
    requires a == CountAvailableMachines || a == AllocateIpaddr || a == AllocateEggname
    ensures forall j :: !Required(ArgumentWords(a), j)
  {
    var ws := ArgumentWords(a);
    forall j | 0 <= j < |ws| ensures !Required(ws, j) {
      assert ws[..j + 1][0] == "|";
    }
  }

  datatype CliError = InvalidAction(name: string) | MissingArgument(name: string)

  /** A handler call ready to be made: `handle_<action>(*args, **kwargs)`. */
  datatype Invocation = Invocation(action: Action, args: seq<string>, kwargs: map<string, ArgValue>)

  /** `main` up to the dispatch: find the action, split the tokens, check the required arguments. */
  method ParseCommandLine(actionName: string, tokens: seq<string>) returns (r: Result<Invocation, CliError>)
    ensures r == Err(InvalidAction(Underscored(actionName))) <==> LookupAction(actionName).None?
    ensures LookupAction(actionName).Some? ==> r.Ok? || r.error.MissingArgument?
    ensures r.Ok? ==>
      && LookupAction(actionName).Some?
      && r.value == Invocation(LookupAction(actionName).value, Positional(tokens), Keywords(tokens))
      && forall j :: !Missing(ArgumentWords(r.value.action), j, |Positional(tokens)|, Keywords(tokens))
    ensures r.Err? && r.error.MissingArgument? ==>
      && LookupAction(actionName).Some?
      && exists j :: Missing(ArgumentWords(LookupAction(actionName).value), j, |Positional(tokens)|, Keywords(tokens))
                  && ArgumentWords(LookupAction(actionName).value)[j] == r.error.name
                  && forall i :: 0 <= i < j ==>
                       !Missing(ArgumentWords(LookupAction(actionName).value), i, |Positional(tokens)|, Keywords(tokens))
  {
    var action := LookupAction(actionName);
    if action.None? {
      return Err(InvalidAction(Underscored(actionName)));
    }
    var args, kwargs := SplitArguments(tokens);
    var ret := CheckArguments(action.value, args, kwargs);
    if ret.Some? {
      return Err(MissingArgument(ret.value));
    }
    return Ok(Invocation(action.value, args, kwargs));
  }
}
