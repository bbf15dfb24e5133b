/** Loading the API key from a `.env` file of `KEY=VALUE` lines into PHP's
    `$_ENV` array, and choosing the key from it. An entry's value is `None`
    when PHP stored `null` for it: a line without '=' leaves the second
    variable of `[$key, $val] = ...` unassigned. */
module EnvLoader {
  import opened Wrappers
  import opened PhpStrings

  type Env = map<string, Option<string>>

  /** The variable the key is read from, and what is used when it is unset. */
  const ApiKeyName: string := "MNOTIFY_API_KEY"
  const Placeholder: string := "YOUR_API_KEY_HERE"

  /** `strpos(trim($line), '#') === 0`: the trimmed line begins with '#'. */
  predicate IsComment(line: string) {
    IndexOf(Trim(line), '#') == Some(0)
  }

  lemma CommentMeansHash(line: string)
    ensures IsComment(line) <==> |Trim(line)| > 0 && Trim(line)[0] == '#'
  {
  }

  /** `array_map('trim', explode('=', $line, 2))` destructured into
      `[$key, $val]`: the trimmed text before the first '=' and the trimmed
      text after it, or `None` for the value when there is no '='. */
  function ParseLine(line: string): (r: (string, Option<string>))
    ensures r.1.None? <==> '=' !in line
    ensures r.1.None? ==> r.0 == Trim(line)
  {
    var (before, after) := SplitFirst(line, '=');
    (Trim(before), if after.Some? then Some(Trim(after.value)) else None)
  }

  /** Only the first '=' separates name from value: `k=v` with no '=' in `k`
      binds `trim(k)` to `trim(v)`, whatever `v` contains. */
  lemma ParseBinding(k: string, v: string)
    requires '=' !in k
    ensures ParseLine(k + "=" + v) == (Trim(k), Some(Trim(v)))
  {
    var line := k + "=" + v;
    assert line == k + ['='] + v;
    IndexOfAfter(k, '=', v);
    assert line[..|k|] == k && line[|k| + 1..] == v;
  }

  /** What one line does to `$_ENV`: nothing (a comment), or
      `$_ENV[key] = val`. */
  datatype Effect = Skip | Assign(key: string, val: Option<string>)

  function LineEffect(line: string): Effect {
    if IsComment(line) then Skip
    else
      var (key, val) := ParseLine(line);
      Assign(key, val)
  }

  /** Whether an effect, or a line, writes `$_ENV[k]`. */
  predicate Sets(e: Effect, k: string) {
    e.Assign? && e.key == k
  }

  predicate Binds(line: string, k: string) {
    Sets(LineEffect(line), k)
  }

  /** One iteration of the loop: the key it writes gets its value, every
      other key is left alone. */
  function Apply(env: Env, e: Effect): (r: Env)
    ensures e.Assign? ==> e.key in r && r[e.key] == e.val
    ensures forall k :: !Sets(e, k) ==> (k in r <==> k in env) && (k in env ==> r[k] == env[k])
  {
    match e
    case Skip => env
    case Assign(key, val) => env[key := val]
  }

  /** The environment after each line's effect, as `effect` says, has been
      applied in order. */
  function Run(env: Env, lines: seq<string>, effect: string -> Effect): Env {
    if lines == [] then env else Apply(Run(env, lines[..|lines| - 1], effect), effect(lines[|lines| - 1]))
  }

  /** `$_ENV` after the loop has run over `lines`, starting from `env`. */
  function ApplyLines(env: Env, lines: seq<string>): Env {
    Run(env, lines, LineEffect)
  }

  /** The loop over the file's lines (with empty lines already dropped by
      `file`), updating the environment in place line by line. */
  method LoadEnv(env0: Env, lines: seq<string>) returns (env: Env)
    ensures env == ApplyLines(env0, lines)
  {
    env := env0;
    for i := 0 to |lines|
      invariant env == ApplyLines(env0, lines[..i])
    {
      var line := lines[i];
      assert lines[..i + 1][..i] == lines[..i];
      if IsComment(line) {
        continue;
      }
      var (key, val) := ParseLine(line);
      env := env[key := val];
    }
    assert lines[..|lines|] == lines;
  }

  /** Whatever the per-line effect, the last line that sets `k` decides
      it. */
  lemma {:induction false} RunLastWins(env: Env, lines: seq<string>, effect: string -> Effect, i: nat, k: string)
    requires i < |lines| && Sets(effect(lines[i]), k)
    requires forall j :: i < j < |lines| ==> !Sets(effect(lines[j]), k)
    ensures var r := Run(env, lines, effect);
            k in r && r[k] == effect(lines[i]).val
  {
    var n := |lines| - 1;
    var init := lines[..n];
    if i < n {
      assert init[i] == lines[i];
      forall j | i < j < |init| ensures !Sets(effect(init[j]), k) {
        assert init[j] == lines[j];
      }
      RunLastWins(env, init, effect, i, k);
    }
  }

  /** Whatever the per-line effect, a key no line sets is left alone. */
  lemma {:induction false} RunKeepsUnset(env: Env, lines: seq<string>, effect: string -> Effect, k: string)
    requires forall j :: 0 <= j < |lines| ==> !Sets(effect(lines[j]), k)
    ensures var r := Run(env, lines, effect);
            (k in r <==> k in env) && (k in env ==> r[k] == env[k])
  {
    if lines != [] {
      var init := lines[..|lines| - 1];
      forall j | 0 <= j < |init| ensures !Sets(effect(init[j]), k) {
        assert init[j] == lines[j];
      }
      RunKeepsUnset(env, init, effect, k);
    }
  }

  /** The last line that binds a key decides its value: later lines
      overwrite earlier ones. */
  lemma LastBindingWins(env: Env, lines: seq<string>, i: nat, k: string)
    requires i < |lines| && Binds(lines[i], k)
    requires forall j :: i < j < |lines| ==> !Binds(lines[j], k)
    ensures var r := ApplyLines(env, lines);
            k in r && r[k] == ParseLine(lines[i]).1
  {
    RunLastWins(env, lines, LineEffect, i, k);
  }

  /** A key no line binds keeps what it had before the file was read. */
  lemma UnboundKeyUnchanged(env: Env, lines: seq<string>, k: string)
    requires forall j :: 0 <= j < |lines| ==> !Binds(lines[j], k)
    ensures var r := ApplyLines(env, lines);
            (k in r <==> k in env) && (k in env ==> r[k] == env[k])
  {
    RunKeepsUnset(env, lines, LineEffect, k);
  }

  /** A comment line can be dropped from the file without changing the
      outcome. */
  lemma CommentIgnored(env: Env, lines: seq<string>, c: string)
    requires IsComment(c)
    ensures ApplyLines(env, lines + [c]) == ApplyLines(env, lines)
  {
    assert (lines + [c])[..|lines|] == lines;
  }

  /** `$_ENV['MNOTIFY_API_KEY'] ?? 'YOUR_API_KEY_HERE'`: the stored value
      when there is a non-null one, even an empty one; the placeholder when
      the entry is missing or null. */
  function ApiKey(env: Env): (key: string)
    ensures ApiKeyName in env && env[ApiKeyName].Some? ==> key == env[ApiKeyName].value
    ensures ApiKeyName !in env || env[ApiKeyName].None? ==> key == Placeholder
  {
    if ApiKeyName in env then env[ApiKeyName].GetOr(Placeholder) else Placeholder
  }

  /** Start-up: read the `.env` file when it exists (`file` is `None` when it
      does not), then choose the key. */
  method LoadApiKey(env0: Env, file: Option<seq<string>>) returns (env: Env, key: string)
    ensures file.None? ==> env == env0
    ensures file.Some? ==> env == ApplyLines(env0, file.value)
    ensures key == ApiKey(env)
  {
    env := env0;
    if file.Some? {
      env := LoadEnv(env0, file.value);
    }
    key := ApiKey(env);
  }

  /** The key comes from the last line naming `MNOTIFY_API_KEY`: its value
      when the line has an '=' (possibly ""), the placeholder when it has
      none. */
  lemma KeyFromLastLine(env: Env, lines: seq<string>, i: nat)
    requires i < |lines| && Binds(lines[i], ApiKeyName)
    requires forall j :: i < j < |lines| ==> !Binds(lines[j], ApiKeyName)
    ensures ApiKey(ApplyLines(env, lines)) == ParseLine(lines[i]).1.GetOr(Placeholder)
  {
    LastBindingWins(env, lines, i, ApiKeyName);
  }

  /** With no line naming `MNOTIFY_API_KEY`, and nothing in the environment
      before, the placeholder is used. */
  lemma PlaceholderWhenUnset(env: Env, lines: seq<string>)
    requires ApiKeyName !in env
    requires forall j :: 0 <= j < |lines| ==> !Binds(lines[j], ApiKeyName)
    ensures ApiKey(ApplyLines(env, lines)) == Placeholder
  {
    UnboundKeyUnchanged(env, lines, ApiKeyName);
  }

  /** A line is a comment exactly when its first non-trimmable character
      is '#'. */
  lemma CommentByFirstVisible(line: string)
    ensures IsComment(line) <==> LeadingTrimmable(line) < |line| && line[LeadingTrimmable(line)] == '#'
  {
    var l := LeadingTrimmable(line);
    var t := Trim(line);
    TrimSpec(line);
    LeadingTrimmableSpec(line);
    CommentMeansHash(line);
    if l < |line| {
      assert line[l..][0] == line[l];
      assert t != [];
      assert t[0] == line[l];
    }
  }

  /** Text after the first visible character does not affect
      `LeadingTrimmable`. */
  lemma {:induction false} LeadingTrimmableExtend(k: string, rest: string)
    requires LeadingTrimmable(k) < |k|
    ensures LeadingTrimmable(k + rest) == LeadingTrimmable(k)
  {
    if IsTrimmable(k[0]) {
      assert (k + rest)[1..] == k[1..] + rest;
      LeadingTrimmableExtend(k[1..], rest);
    }
  }

  /** A line whose first visible character is not '#' is not a comment. */
  lemma VisibleNotComment(line: string)
    requires LeadingTrimmable(line) < |line| && line[LeadingTrimmable(line)] != '#'
    ensures !IsComment(line)
  {
    CommentByFirstVisible(line);
  }

  /** A line that starts with a name not beginning with '#' is not a
      comment, whatever follows the name. */
  lemma NamedLineNotComment(k: string, rest: string)
    requires LeadingTrimmable(k) < |k| && k[LeadingTrimmable(k)] != '#'
    ensures !IsComment(k + rest)
  {
    var l := LeadingTrimmable(k);
    LeadingTrimmableExtend(k, rest);
    assert (k + rest)[l] == k[l];
    VisibleNotComment(k + rest);
  }

  /** A line `k=v` whose name does not begin with '#' is not a comment. */
  lemma KeyValueNotComment(k: string, v: string)
    requires LeadingTrimmable(k) < |k| && k[LeadingTrimmable(k)] != '#'
    ensures !IsComment(k + "=" + v)
  {
    NamedLineNotComment(k, "=" + v);
    assert k + ("=" + v) == k + "=" + v;
  }

  /** A line `k=v` that is not a comment, with no '=' in `k`, writes
      `trim(v)` under `trim(k)`. */
  lemma KeyValueEffect(k: string, v: string)
    requires '=' !in k
    requires !IsComment(k + "=" + v)
    ensures LineEffect(k + "=" + v) == Assign(Trim(k), Some(Trim(v)))
  {
    ParseBinding(k, v);
  }

  /** A line `k=v` whose name does not begin with '#' binds `trim(k)` to
      `trim(v)`. */
  lemma BindingLine(k: string, v: string)
    requires '=' !in k
    requires LeadingTrimmable(k) < |k| && k[LeadingTrimmable(k)] != '#'
    ensures LineEffect(k + "=" + v) == Assign(Trim(k), Some(Trim(v)))
  {
    KeyValueNotComment(k, v);
    KeyValueEffect(k, v);
  }
}
