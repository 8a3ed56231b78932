/** The rewrite-until-gone converters (services/mddbd/document_converters.go): LaTeX commands, HTML
    tags and links. Text is ASCII. */
module Converters {
  import opened ByteStrings
  import opened Keys

  // ---- searching and counting ----------------------------------------------------------------------

  ghost predicate OccursAt(s: string, pat: string, i: int) {
    0 <= i && i + |pat| <= |s| && s[i..i + |pat|] == pat
  }

  /** The first occurrence, or -1. */
  function Index(s: string, pat: string): (r: int)
    ensures r >= 0 ==> OccursAt(s, pat, r) && forall i | 0 <= i < r :: !OccursAt(s, pat, i)
    ensures r < 0 ==> r == -1 && forall i :: !OccursAt(s, pat, i)
  {
    IndexFrom(s, pat, 0)
  }

  function IndexFrom(s: string, pat: string, from: nat): (r: int)
    requires from <= |s|
    ensures r >= 0 ==> from <= r && OccursAt(s, pat, r) && forall i | from <= i < r :: !OccursAt(s, pat, i)
    ensures r < 0 ==> r == -1 && forall i | from <= i :: !OccursAt(s, pat, i)
    decreases |s| - from
  {
    if from + |pat| <= |s| && s[from..from + |pat|] == pat then from
    else if from == |s| then -1
    else IndexFrom(s, pat, from + 1)
  }

  lemma IndexIs(s: string, pat: string, i: nat)
    requires OccursAt(s, pat, i) && forall j | 0 <= j < i :: !OccursAt(s, pat, j)
    ensures Index(s, pat) == i
  {
  }

  ghost function Places(c: char, s: string): set<int> { set i | 0 <= i < |s| && s[i] == c }

  /** How often a character occurs. */
  ghost function Count(c: char, s: string): nat { |Places(c, s)| }

  lemma CountOneMore(c: char, s: string, x: char)
    ensures Count(c, s + [x]) == Count(c, s) + if x == c then 1 else 0
  {
    assert Places(c, s + [x]) == Places(c, s) + if x == c then {|s|} else {};
  }

  lemma {:induction false} CountOf(c: char, a: string, b: string)
    ensures Count(c, a + b) == Count(c, a) + Count(c, b)
  {
    if b == "" {
      assert a + b == a;
    } else {
      var init, last := b[..|b| - 1], b[|b| - 1];
      assert b == init + [last] && a + b == (a + init) + [last];
      CountOf(c, a, init);
      CountOneMore(c, init, last);
      CountOneMore(c, a + init, last);
    }
  }

  /** A slice counts no more than the whole. */
  lemma CountBetween(c: char, s: string, i: nat, j: nat)
    requires i <= j <= |s|
    ensures Count(c, s) == Count(c, s[..i]) + Count(c, s[i..j]) + Count(c, s[j..])
  {
    assert s == s[..i] + s[i..] && s[i..] == s[i..j] + s[j..];
    CountOf(c, s[..i], s[i..]);
    CountOf(c, s[i..j], s[j..]);
  }

  lemma CountNone(c: char, s: string)
    ensures c !in s <==> Count(c, s) == 0
  {
    if c in s {
      var i :| 0 <= i < |s| && s[i] == c;
      assert i in Places(c, s);
    }
  }

  // ---- LaTeX commands --------------------------------------------------------------------------------

  predicate Letter(c: char) { 'a' <= c <= 'z' || 'A' <= c <= 'Z' }

  /** Past the bracket that closes an optional argument, or at the end. */
  function SkipBrackets(s: string, pos: nat, depth: nat): (r: nat)
    requires pos <= |s|
    ensures pos <= r <= |s|
    decreases |s| - pos
  {
    if pos == |s| || depth == 0 then pos
    else SkipBrackets(s, pos + 1, if s[pos] == '[' then depth + 1 else if s[pos] == ']' then depth - 1 else depth)
  }

  /** The brace that closes an argument: its place and 0, or the end and what stays open. */
  function CloseBrace(s: string, end: nat, depth: nat): (r: (nat, nat))
    requires end <= |s| && depth > 0
    ensures end <= r.0 <= |s| && (r.1 == 0 ==> r.0 < |s| && s[r.0] == '}')
    decreases |s| - end
  {
    if end == |s| then (end, depth)
    else if s[end] == '{' then CloseBrace(s, end + 1, depth + 1)
    else if s[end] == '}' then (if depth == 1 then (end, 0) else CloseBrace(s, end + 1, depth - 1))
    else CloseBrace(s, end + 1, depth)
  }

  /** Braces or brackets opened less those closed. */
  function Nest(t: string, open: char, close: char): int {
    if t == "" then 0
    else
      var last := t[|t| - 1];
      Nest(t[..|t| - 1], open, close) + if last == open then 1 else if last == close then -1 else 0
  }

  ghost predicate BalancedIn(t: string, open: char, close: char) {
    Nest(t, open, close) == 0 && forall i | 0 <= i <= |t| :: Nest(t[..i], open, close) >= 0
  }

  ghost predicate Balanced(t: string) { BalancedIn(t, '{', '}') }

  lemma NestOneMore(s: string, start: nat, end: nat, open: char, close: char)
    requires start <= end < |s|
    ensures Nest(s[start..end + 1], open, close)
         == Nest(s[start..end], open, close) + if s[end] == open then 1 else if s[end] == close then -1 else 0
  {
    assert s[start..end + 1][..end - start] == s[start..end];
  }

  /** The brace found is the first that leaves a balanced argument before it. */
  lemma {:induction false} CloseBraceIs(s: string, start: nat, end: nat, depth: nat, target: nat)
    requires start <= end <= target < |s| && s[target] == '}' && Balanced(s[start..target])
    requires depth == Nest(s[start..end], '{', '}') + 1 && depth > 0
    ensures CloseBrace(s, end, depth) == (target, 0)
    decreases target - end
  {
    if end < target {
      NestOneMore(s, start, end, '{', '}');
      assert s[start..target][..end + 1 - start] == s[start..end + 1];
      CloseBraceIs(s, start, end + 1, Nest(s[start..end + 1], '{', '}') + 1, target);
    }
  }

  /** What is left open so far has never closed more than it opened. */
  ghost predicate NeverBelow(t: string, open: char, close: char) {
    forall i | 0 <= i <= |t| :: Nest(t[..i], open, close) >= 0
  }

  lemma NeverBelowNext(s: string, start: nat, end: nat, open: char, close: char)
    requires start <= end < |s| && NeverBelow(s[start..end], open, close)
    requires s[end] == close != open ==> Nest(s[start..end], open, close) > 0
    ensures NeverBelow(s[start..end + 1], open, close)
  {
    NestOneMore(s, start, end, open, close);
    var longer := s[start..end + 1];
    assert s[start..end][..end - start] == s[start..end];
    assert longer[..|longer|] == longer;
    forall i | 0 <= i < |longer| ensures Nest(longer[..i], open, close) >= 0 {
      assert longer[..i] == s[start..end][..i];
    }
  }

  /** And one found leaves a balanced argument. */
  lemma {:induction false} ClosedIsBalanced(s: string, start: nat, end: nat, depth: nat)
    requires start <= end <= |s| && NeverBelow(s[start..end], '{', '}')
    requires depth == Nest(s[start..end], '{', '}') + 1 > 0
    ensures CloseBrace(s, end, depth).1 == 0 ==> Balanced(s[start..CloseBrace(s, end, depth).0])
    decreases |s| - end
  {
    if end < |s| && !(s[end] == '}' && depth == 1) {
      NeverBelowNext(s, start, end, '{', '}');
      NestOneMore(s, start, end, '{', '}');
      assert s[start..end + 1][..end + 1 - start] == s[start..end + 1];
      ClosedIsBalanced(s, start, end + 1, Nest(s[start..end + 1], '{', '}') + 1);
    }
  }

  /** The optional argument runs to the end, or to a bracket that leaves it balanced. */
  lemma {:induction false} SkippedIsShut(s: string, start: nat, end: nat, depth: nat)
    requires start <= end <= |s| && NeverBelow(s[start..end], '[', ']')
    requires depth == Nest(s[start..end], '[', ']') + 1 > 0
    ensures var r := SkipBrackets(s, end, depth);
            r == |s| || (start < r && s[r - 1] == ']' && BalancedIn(s[start..r - 1], '[', ']'))
    decreases |s| - end
  {
    if end < |s| && !(s[end] == ']' && depth == 1) {
      NeverBelowNext(s, start, end, '[', ']');
      NestOneMore(s, start, end, '[', ']');
      assert s[start..end + 1][..end + 1 - start] == s[start..end + 1];
      SkippedIsShut(s, start, end + 1, Nest(s[start..end + 1], '[', ']') + 1);
    }
  }

  /** The optional argument ends at the first bracket that leaves it balanced. */
  lemma {:induction false} SkipBracketsIs(s: string, start: nat, end: nat, depth: nat, target: nat)
    requires start <= end <= target < |s| && s[target] == ']' && BalancedIn(s[start..target], '[', ']')
    requires depth == Nest(s[start..end], '[', ']') + 1 && depth > 0
    ensures SkipBrackets(s, end, depth) == target + 1
    decreases target - end
  {
    if end < target {
      NestOneMore(s, start, end, '[', ']');
      assert s[start..target][..end + 1 - start] == s[start..end + 1];
      SkipBracketsIs(s, start, end + 1, Nest(s[start..end + 1], '[', ']') + 1, target);
    }
  }

  /** Where an argument may begin: behind the command and an optional argument. */
  function ArgumentAt(s: string, after: nat): (r: nat)
    requires after <= |s|
    ensures after <= r <= |s|
  {
    if after < |s| && s[after] == '[' then SkipBrackets(s, after + 1, 1) else after
  }

  /** The text without [i, j). */
  function Cut(s: string, i: nat, j: nat): string
    requires i <= j <= |s|
  {
    s[..i] + s[j..]
  }

  lemma CutShrinks(s: string, i: nat, j: nat)
    requires i < j <= |s|
    ensures Count(s[i], Cut(s, i, j)) < Count(s[i], s)
  {
    CountBetween(s[i], s, i, j);
    CountHead(s[i], s[i..j]);
    CountOf(s[i], s[..i], s[j..]);
  }

  lemma CountHead(c: char, s: string)
    requires s != "" && s[0] == c
    ensures Count(c, s) >= 1
  {
    assert 0 in Places(c, s);
  }

  lemma CountFive(c: char, a: string, b: string, m: string, d: string, z: string)
    ensures Count(c, a + b + m + d + z) == Count(c, a) + Count(c, b) + Count(c, m) + Count(c, d) + Count(c, z)
  {
    CountOf(c, a + b + m + d, z);
    CountOf(c, a + b + m, d);
    CountOf(c, a + b, m);
    CountOf(c, a, b);
  }

  lemma Slices(s: string, i: nat, k: nat, l: nat, j: nat)
    requires i <= k <= l <= j <= |s|
    ensures s == s[..i] + s[i..k] + s[k..l] + s[l..j] + s[j..]
  {
  }

  /** The text with [i, j) replaced by its part [k, l) between a prefix and a suffix. */
  function Around(s: string, i: nat, k: nat, l: nat, j: nat, prefix: string, suffix: string): string
    requires i <= k <= l <= j <= |s|
  {
    s[..i] + prefix + s[k..l] + suffix + s[j..]
  }

  lemma AroundShrinks(s: string, i: nat, k: nat, l: nat, j: nat, prefix: string, suffix: string)
    requires i < k <= l <= j <= |s| && s[i] !in prefix && s[i] !in suffix
    ensures Count(s[i], Around(s, i, k, l, j, prefix, suffix)) < Count(s[i], s)
  {
    var c := s[i];
    Slices(s, i, k, l, j);
    CountFive(c, s[..i], s[i..k], s[k..l], s[l..j], s[j..]);
    CountFive(c, s[..i], prefix, s[k..l], suffix, s[j..]);
    CountHead(c, s[i..k]);
    CountNone(c, prefix);
    CountNone(c, suffix);
  }

  /** What to do with a command: drop the text up to j, or keep [k, l) of it, wrapped. */
  datatype Plan = Drop(j: nat) | Keep(k: nat, l: nat, j: nat)

  ghost predicate PlanIn(s: string, after: nat, p: Plan) {
    match p
    case Drop(j) => after <= j <= |s|
    case Keep(k, l, j) => after <= k <= l <= j <= |s|
  }

  /** The argument at pos, if there is one; an unbalanced brace goes with the command. */
  function ArgumentPlan(s: string, pos: nat): (p: Plan)
    requires pos <= |s|
    ensures PlanIn(s, pos, p)
  {
    if pos >= |s| || s[pos] != '{' then Drop(pos)
    else
      var r := CloseBrace(s, pos + 1, 1);
      if r.1 != 0 then Drop(pos + 1) else Keep(pos + 1, r.0, r.0 + 1)
  }

  /** A longer command only loses this much of its name. */
  function PlanAt(s: string, after: nat): (p: Plan)
    requires after <= |s|
    ensures PlanIn(s, after, p)
  {
    if after < |s| && Letter(s[after]) then Drop(after) else ArgumentPlan(s, ArgumentAt(s, after))
  }

  /** The text with the plan carried out from idx on. */
  function CarryOut(s: string, idx: nat, p: Plan, prefix: string, suffix: string): string
    requires PlanIn(s, idx, p)
  {
    match p
    case Drop(j) => Cut(s, idx, j)
    case Keep(k, l, j) => Around(s, idx, k, l, j, prefix, suffix)
  }

  lemma CarryOutShrinks(s: string, idx: nat, p: Plan, prefix: string, suffix: string)
    requires idx < |s| && PlanIn(s, idx + 1, p) && s[idx] !in prefix && s[idx] !in suffix
    ensures Count(s[idx], CarryOut(s, idx, p, prefix, suffix)) < Count(s[idx], s)
  {
    match p
    case Drop(j) => CutShrinks(s, idx, j);
    case Keep(k, l, j) => AroundShrinks(s, idx, k, l, j, prefix, suffix);
  }

  /** A command begins with a backslash; what replaces it has none. */
  ghost predicate TexCommand(cmd: string, prefix: string, suffix: string) {
    cmd != "" && cmd[0] == '\\' && '\\' !in prefix && '\\' !in suffix
  }

  /** The first occurrence of a command and what to do with it. */
  datatype Command = Command(idx: nat, plan: Plan)

  function FindCommand(s: string, cmd: string): (r: Option<Command>)
    ensures r.None? <==> Index(s, cmd) < 0
    ensures r.Some? ==> OccursAt(s, cmd, r.value.idx) && PlanIn(s, r.value.idx + |cmd|, r.value.plan)
  {
    var idx := Index(s, cmd);
    if idx < 0 then None else Some(Command(idx, PlanAt(s, idx + |cmd|)))
  }

  /** Every rewrite takes a backslash away. */
  lemma StepTakesBackslash(s: string, c: Command, cmd: string, prefix: string, suffix: string)
    requires TexCommand(cmd, prefix, suffix) && OccursAt(s, cmd, c.idx) && PlanIn(s, c.idx + |cmd|, c.plan)
    ensures PlanIn(s, c.idx, c.plan) && Count('\\', CarryOut(s, c.idx, c.plan, prefix, suffix)) < Count('\\', s)
  {
    assert s[c.idx] == s[c.idx..c.idx + |cmd|][0] == '\\';
    CarryOutShrinks(s, c.idx, c.plan, prefix, suffix);
  }

  /** Rewriting the first occurrence of the command until it is gone. */
  function TexFinal(s: string, cmd: string, prefix: string, suffix: string): (r: string)
    requires TexCommand(cmd, prefix, suffix)
    ensures FindCommand(r, cmd).None?
    ensures FindCommand(s, cmd).None? ==> r == s
    decreases Count('\\', s)
  {
    var c := FindCommand(s, cmd);
    if c.None? then s
    else
      StepTakesBackslash(s, c.value, cmd, prefix, suffix);
      TexFinal(CarryOut(s, c.value.idx, c.value.plan, prefix, suffix), cmd, prefix, suffix)
  }

  lemma TexFinalNext(s: string, c: Command, t: string, cmd: string, prefix: string, suffix: string)
    requires TexCommand(cmd, prefix, suffix) && FindCommand(s, cmd) == Some(c)
    requires PlanIn(s, c.idx, c.plan) && t == CarryOut(s, c.idx, c.plan, prefix, suffix)
    ensures TexFinal(s, cmd, prefix, suffix) == TexFinal(t, cmd, prefix, suffix)
  {
  }

  /** The loop ends on every text, unbalanced braces included, and leaves no occurrence. */
  method TexReplaceCmd(s0: string, cmd: string, prefix: string, suffix: string) returns (s: string)
    requires TexCommand(cmd, prefix, suffix)
    ensures s == TexFinal(s0, cmd, prefix, suffix)
    ensures forall i :: !OccursAt(s, cmd, i)
  {
    s := s0;
    while true
      invariant TexFinal(s, cmd, prefix, suffix) == TexFinal(s0, cmd, prefix, suffix)
      decreases Count('\\', s)
    {
      var found := NextCommand(s, cmd);
      if found.None? {
        return;
      }
      var c := found.value;
      StepTakesBackslash(s, c, cmd, prefix, suffix);
      s := CarryOut(s, c.idx, c.plan, prefix, suffix);
    }
  }

  method NextCommand(s: string, cmd: string) returns (r: Option<Command>)
    ensures r == FindCommand(s, cmd)
  {
    var idx := Index(s, cmd);
    if idx < 0 {
      return None;
    }
    var plan := MakePlan(s, idx + |cmd|);
    r := Some(Command(idx, plan));
  }

  method MakePlan(s: string, afterCmd: nat) returns (p: Plan)
    requires afterCmd <= |s|
    ensures p == PlanAt(s, afterCmd)
  {
    if afterCmd < |s| && Letter(s[afterCmd]) {
      return Drop(afterCmd);
    }
    var pos := SkipOptional(s, afterCmd);
    if pos >= |s| || s[pos] != '{' {
      return Drop(pos);
    }
    var end, depth := FindClosing(s, pos + 1);
    if depth != 0 {
      return Drop(pos + 1);
    }
    p := Keep(pos + 1, end, end + 1);
  }

  method SkipOptional(s: string, afterCmd: nat) returns (pos: nat)
    requires afterCmd <= |s|
    ensures pos == ArgumentAt(s, afterCmd)
  {
    pos := afterCmd;
    if pos < |s| && s[pos] == '[' {
      var depth := 1;
      pos := pos + 1;
      while pos < |s| && depth > 0
        invariant pos <= |s| && depth >= 0
        invariant SkipBrackets(s, pos, depth) == SkipBrackets(s, afterCmd + 1, 1)
      {
        if s[pos] == '[' {
          depth := depth + 1;
        } else if s[pos] == ']' {
          depth := depth - 1;
        }
        pos := pos + 1;
      }
    }
  }

  method FindClosing(s: string, start: nat) returns (end: nat, depth: nat)
    requires start <= |s|
    ensures (end, depth) == CloseBrace(s, start, 1)
  {
    depth, end := 1, start;
    while end < |s| && depth > 0
      invariant end <= |s| && (depth == 0 ==> end < |s|)
      invariant CloseBrace(s, start, 1) == if depth == 0 then (end, 0) else CloseBrace(s, end, depth)
      decreases |s| - end, depth
    {
      if s[end] == '{' {
        depth := depth + 1;
      } else if s[end] == '}' {
        depth := depth - 1;
      }
      if depth > 0 {
        end := end + 1;
      }
    }
  }

  /** A command with a balanced argument becomes the wrapped argument, and rewriting goes on. */
  lemma TexExpands(pre: string, content: string, rest: string, cmd: string, prefix: string, suffix: string)
    requires TexCommand(cmd, prefix, suffix) && Balanced(content)
    requires Index(pre + cmd + "{" + content + "}" + rest, cmd) == |pre|
    ensures TexFinal(pre + cmd + "{" + content + "}" + rest, cmd, prefix, suffix)
         == TexFinal(pre + prefix + content + suffix + rest, cmd, prefix, suffix)
  {
    var s := pre + cmd + "{" + content + "}" + rest;
    var pos := |pre| + |cmd|;
    Pieces(pre, cmd, content, rest);
    ArgumentKept(s, pos, pos + 1 + |content|);
    TexFinalNext(s, Command(|pre|, PlanAt(s, pos)), pre + prefix + content + suffix + rest, cmd, prefix, suffix);
  }

  /** Behind the command and its optional argument, if it has one: one that is never closed takes all the
      rest. */
  ghost predicate Behind(s: string, after: nat, pos: nat) {
    && after <= pos <= |s|
    && if after == |s| || s[after] != '[' then pos == after
       else || (after + 1 < pos && s[pos - 1] == ']' && BalancedIn(s[after + 1..pos - 1], '[', ']'))
            || (pos == |s| && NeverShut(s, after))
  }

  ghost predicate NeverShut(s: string, after: nat) {
    forall end | after < end < |s| && s[end] == ']' :: !BalancedIn(s[after + 1..end], '[', ']')
  }

  lemma ArgumentAtIs(s: string, after: nat, pos: nat)
    requires Behind(s, after, pos)
    ensures ArgumentAt(s, after) == pos
  {
    if after < |s| && s[after] == '[' {
      assert s[after + 1..after + 1] == "";
      if after + 1 < pos && s[pos - 1] == ']' && BalancedIn(s[after + 1..pos - 1], '[', ']') {
        SkipBracketsIs(s, after + 1, after + 1, 1, pos - 1);
      } else {
        SkippedIsShut(s, after + 1, after + 1, 1);
      }
    }
  }

  /** With an optional argument, which goes with the command, as without. */
  lemma TexExpandsOptional(s: string, idx: nat, pos: nat, end: nat, t: string, cmd: string, prefix: string,
                           suffix: string)
    requires TexCommand(cmd, prefix, suffix) && Index(s, cmd) == idx && Behind(s, idx + |cmd|, pos) && pos < end < |s|
    requires s[pos] == '{' && s[end] == '}' && Balanced(s[pos + 1..end])
    requires t == s[..idx] + prefix + s[pos + 1..end] + suffix + s[end + 1..]
    ensures TexFinal(s, cmd, prefix, suffix) == TexFinal(t, cmd, prefix, suffix)
  {
    ArgumentAtIs(s, idx + |cmd|, pos);
    ArgumentAfter(s, idx + |cmd|, pos, end);
    TexFinalNext(s, Command(idx, Keep(pos + 1, end, end + 1)), t, cmd, prefix, suffix);
  }

  lemma ArgumentAfter(s: string, after: nat, pos: nat, end: nat)
    requires after <= pos < end < |s| && ArgumentAt(s, after) == pos
    requires s[pos] == '{' && s[end] == '}' && Balanced(s[pos + 1..end])
    ensures PlanAt(s, after) == Keep(pos + 1, end, end + 1)
  {
    assert s[pos + 1..pos + 1] == "";
    CloseBraceIs(s, pos + 1, pos + 1, 1, end);
  }

  /** Without an argument only the command goes, and of a longer command the name it begins with. */
  lemma TexDrops(s: string, idx: nat, pos: nat, t: string, cmd: string, prefix: string, suffix: string)
    requires TexCommand(cmd, prefix, suffix) && Index(s, cmd) == idx && Behind(s, idx + |cmd|, pos)
    requires pos < |s| ==> s[pos] != '{'
    requires t == s[..idx] + s[pos..]
    ensures TexFinal(s, cmd, prefix, suffix) == TexFinal(t, cmd, prefix, suffix)
  {
    ArgumentAtIs(s, idx + |cmd|, pos);
    TexFinalNext(s, Command(idx, Drop(pos)), t, cmd, prefix, suffix);
  }

  /** With a brace that is never closed the brace goes as well. */
  lemma TexDropsBrace(s: string, idx: nat, pos: nat, t: string, cmd: string, prefix: string, suffix: string)
    requires TexCommand(cmd, prefix, suffix) && Index(s, cmd) == idx && Behind(s, idx + |cmd|, pos)
    requires pos < |s| && s[pos] == '{'
    requires forall end | pos < end < |s| && s[end] == '}' :: !Balanced(s[pos + 1..end])
    requires t == s[..idx] + s[pos + 1..]
    ensures TexFinal(s, cmd, prefix, suffix) == TexFinal(t, cmd, prefix, suffix)
  {
    NeverClosed(s, idx + |cmd|, pos);
    TexFinalNext(s, Command(idx, Drop(pos + 1)), t, cmd, prefix, suffix);
  }

  lemma NeverClosed(s: string, after: nat, pos: nat)
    requires Behind(s, after, pos) && pos < |s| && s[pos] == '{'
    requires forall end | pos < end < |s| && s[end] == '}' :: !Balanced(s[pos + 1..end])
    ensures PlanAt(s, after) == Drop(pos + 1)
  {
    ArgumentAtIs(s, after, pos);
    assert s[pos + 1..pos + 1] == "";
    ClosedIsBalanced(s, pos + 1, pos + 1, 1);
  }

  lemma Pieces(pre: string, cmd: string, content: string, rest: string)
    ensures var s := pre + cmd + "{" + content + "}" + rest;
            var pos := |pre| + |cmd|;
            var end := pos + 1 + |content|;
            && end < |s| && s[pos] == '{' && s[end] == '}'
            && s[..|pre|] == pre && s[pos + 1..end] == content && s[end + 1..] == rest
  {
  }

  lemma ArgumentKept(s: string, pos: nat, end: nat)
    requires pos < end < |s| && s[pos] == '{' && s[end] == '}' && Balanced(s[pos + 1..end])
    ensures PlanAt(s, pos) == Keep(pos + 1, end, end + 1)
  {
    assert s[pos + 1..pos + 1] == "";
    CloseBraceIs(s, pos + 1, pos + 1, 1, end);
  }

  // ---- HTML elements --------------------------------------------------------------------------------------

  /** An element: where it starts, where its text opens and closes, and its end. */
  datatype Element = Element(start: nat, open: nat, close: nat, end: nat)

  ghost predicate ElementIn(s: string, e: Element) {
    && e.start < e.open <= e.close < e.end <= |s|
    && s[e.start] == '<' && s[e.close] == '<'
  }

  lemma LowerKeepsMark(s: string, i: nat)
    requires i < |s| && Lower(s)[i] == '<'
    ensures s[i] == '<'
  {
  }

  /** The text from where an opening tag starts: the element is complete if a '>' and then the
      closing tag follow. Letter case does not matter. */
  function ElementFrom(s: string, start: nat, closeTag: string): (r: Option<Element>)
    requires start < |s| && s[start] == '<' && closeTag != "" && closeTag[0] == '<'
    ensures r.Some? ==> ElementIn(s, r.value) && r.value.start == start
  {
    var gt := Index(s[start..], ">");
    if gt < 0 then None
    else
      assert s[start..][gt..gt + 1] == ">";
      var open := start + gt + 1;
      var close := Index(Lower(s[open..]), closeTag);
      if close < 0 then None
      else
        assert Lower(s[open..])[close] == Lower(s[open..])[close..close + |closeTag|][0];
        LowerKeepsMark(s[open..], close);
        Some(Element(start, open, open + close, open + close + |closeTag|))
  }

  ghost predicate Tags(openTag: string, closeTag: string) {
    openTag != "" && openTag[0] == '<' && closeTag != "" && closeTag[0] == '<'
  }

  /** The element at the first opening tag, if it is complete. */
  function FindElement(s: string, openTag: string, closeTag: string): (r: Option<Element>)
    requires Tags(openTag, closeTag)
    ensures r.Some? ==> ElementIn(s, r.value)
  {
    var start := Index(Lower(s), openTag);
    if start < 0 then None
    else
      assert Lower(s)[start] == Lower(s)[start..start + |openTag|][0];
      LowerKeepsMark(s, start);
      ElementFrom(s, start, closeTag)
  }

  function Wrap(s: string, e: Element, prefix: string, suffix: string): string
    requires ElementIn(s, e)
  {
    Around(s, e.start, e.open, e.close, e.end, prefix, suffix)
  }

  /** Rewriting complete elements until the first opening tag, if any, has none. */
  function TagFinal(s: string, openTag: string, closeTag: string, prefix: string, suffix: string): (r: string)
    requires Tags(openTag, closeTag) && '<' !in prefix && '<' !in suffix
    ensures FindElement(r, openTag, closeTag).None?
    ensures FindElement(s, openTag, closeTag).None? ==> r == s
    decreases Count('<', s)
  {
    var e := FindElement(s, openTag, closeTag);
    if e.None? then s
    else
      AroundShrinks(s, e.value.start, e.value.open, e.value.close, e.value.end, prefix, suffix);
      TagFinal(Wrap(s, e.value, prefix, suffix), openTag, closeTag, prefix, suffix)
  }

  lemma TagsOf(tag: string)
    ensures Tags("<" + tag, "</" + tag + ">")
  {
  }

  /** The loop over one tag: it ends on every text and leaves no complete element at the first
      opening tag. */
  method ReplaceTagContent(s0: string, tag: string, prefix: string, suffix: string) returns (s: string)
    requires '<' !in prefix && '<' !in suffix
    ensures Tags("<" + tag, "</" + tag + ">")
    ensures s == TagFinal(s0, "<" + tag, "</" + tag + ">", prefix, suffix)
    ensures FindElement(s, "<" + tag, "</" + tag + ">").None?
  {
    s := s0;
    TagsOf(tag);
    var openTag, closeTag := "<" + tag, "</" + tag + ">";
    while true
      invariant TagFinal(s, openTag, closeTag, prefix, suffix) == TagFinal(s0, openTag, closeTag, prefix, suffix)
      decreases Count('<', s)
    {
      var next := FindElement(s, openTag, closeTag);
      if next.None? {
        return;
      }
      var e := next.value;
      AroundShrinks(s, e.start, e.open, e.close, e.end, prefix, suffix);
      var content := s[e.open..e.close];
      s := s[..e.start] + prefix + content + suffix + s[e.end..];
    }
  }

  /** A complete element becomes its wrapped text, prefix first, and rewriting goes on: the first opening
      tag is at a, its bracket closes before b, and the first closing tag after that is at c. */
  lemma TagExpands(s: string, a: nat, b: nat, c: nat, t: string, openTag: string, closeTag: string, prefix: string,
                   suffix: string)
    requires Tags(openTag, closeTag) && '<' !in prefix && '<' !in suffix
    requires Index(Lower(s), openTag) == a && a < b <= c && c + |closeTag| <= |s|
    requires Index(s[a..], ">") == b - a - 1 && Index(Lower(s[b..]), closeTag) == c - b
    requires t == s[..a] + prefix + s[b..c] + suffix + s[c + |closeTag|..]
    ensures TagFinal(s, openTag, closeTag, prefix, suffix) == TagFinal(t, openTag, closeTag, prefix, suffix)
  {
    var e := Element(a, b, c, c + |closeTag|);
    FoundAt(s, e, openTag, closeTag);
    TagFinalNext(s, e, t, openTag, closeTag, prefix, suffix);
  }

  lemma FoundAt(s: string, e: Element, openTag: string, closeTag: string)
    requires Tags(openTag, closeTag) && Index(Lower(s), openTag) == e.start && e.start < e.open <= |s|
    requires Index(s[e.start..], ">") == e.open - e.start - 1
             && Index(Lower(s[e.open..]), closeTag) == e.close - e.open >= 0
    requires e.end == e.close + |closeTag|
    ensures FindElement(s, openTag, closeTag) == Some(e)
  {
    MarkAt(s, e.start, openTag);
    FoundFrom(s, e.start, e.open, e.close, closeTag);
  }

  lemma MarkAt(s: string, a: nat, openTag: string)
    requires openTag != "" && openTag[0] == '<' && OccursAt(Lower(s), openTag, a)
    ensures s[a] == '<'
  {
    assert Lower(s)[a] == Lower(s)[a..a + |openTag|][0];
    LowerKeepsMark(s, a);
  }

  lemma FoundFrom(s: string, a: nat, b: nat, c: nat, closeTag: string)
    requires a < b <= |s| && s[a] == '<' && closeTag != "" && closeTag[0] == '<'
    requires Index(s[a..], ">") == b - a - 1 && Index(Lower(s[b..]), closeTag) == c - b >= 0
    ensures ElementFrom(s, a, closeTag) == Some(Element(a, b, c, c + |closeTag|))
  {
    var gt, close := Index(s[a..], ">"), Index(Lower(s[b..]), closeTag);
    assert gt >= 0 && a + gt + 1 == b && b + close == c;
  }

  lemma TagFinalNext(s: string, e: Element, t: string, openTag: string, closeTag: string, prefix: string,
                     suffix: string)
    requires Tags(openTag, closeTag) && '<' !in prefix && '<' !in suffix
    requires FindElement(s, openTag, closeTag) == Some(e) && t == Wrap(s, e, prefix, suffix)
    ensures TagFinal(s, openTag, closeTag, prefix, suffix) == TagFinal(t, openTag, closeTag, prefix, suffix)
  {
  }

  // ---- links ------------------------------------------------------------------------------------------------

  /** The quoted address of an opening tag; empty when there is none. */
  function Href(openTag: string): string {
    var at := Index(Lower(openTag), "href=\"");
    if at < 0 then ""
    else
      var start := at + 6;
      var len := Index(openTag[start..], "\"");
      if len > 0 then openTag[start..start + len] else ""
  }

  lemma HrefIsPart(openTag: string) returns (i: nat, j: nat)
    ensures i <= j <= |openTag| && Href(openTag) == openTag[i..j]
  {
    var at := Index(Lower(openTag), "href=\"");
    i, j := 0, 0;
    if at >= 0 {
      var len := Index(openTag[at + 6..], "\"");
      if len > 0 {
        i, j := at + 6, at + 6 + len;
      }
    }
  }

  lemma HrefCount(openTag: string)
    ensures Count('<', Href(openTag)) <= Count('<', openTag)
  {
    var i, j := HrefIsPart(openTag);
    CountBetween('<', openTag, i, j);
  }

  function LinkText(text: string, href: string): string {
    if href != "" then "[" + text + "](" + href + ")" else text
  }

  function Relink(s: string, e: Element): string
    requires ElementIn(s, e)
  {
    s[..e.start] + LinkText(s[e.open..e.close], Href(s[e.start..e.open])) + s[e.end..]
  }

  lemma LinkTextCount(text: string, href: string)
    ensures Count('<', LinkText(text, href)) <= Count('<', text) + Count('<', href)
  {
    CountOf('<', "[" + text + "](" + href, ")");
    CountOf('<', "[" + text + "](", href);
    CountOf('<', "[" + text, "](");
    CountOf('<', "[", text);
    CountNone('<', "[");
    CountNone('<', "](");
    CountNone('<', ")");
  }

  /** A link rewritten takes the mark of its closing tag away. */
  lemma RelinkTakesTag(s: string, e: Element)
    requires ElementIn(s, e)
    ensures Count('<', Relink(s, e)) < Count('<', s)
  {
    var a, b, c, d, f := s[..e.start], s[e.start..e.open], s[e.open..e.close], s[e.close..e.end], s[e.end..];
    Slices(s, e.start, e.open, e.close, e.end);
    CountFive('<', a, b, c, d, f);
    CountHead('<', d);
    HrefCount(b);
    LinkTextCount(c, Href(b));
    CountOf('<', a + LinkText(c, Href(b)), f);
    CountOf('<', a, LinkText(c, Href(b)));
  }

  function LinksFinal(s: string): (r: string)
    ensures FindElement(r, "<a ", "</a>").None?
    ensures FindElement(s, "<a ", "</a>").None? ==> r == s
    decreases Count('<', s)
  {
    var e := FindElement(s, "<a ", "</a>");
    if e.None? then s
    else
      RelinkTakesTag(s, e.value);
      LinksFinal(Relink(s, e.value))
  }

  /** The loop over links, whatever their addresses and texts are. */
  method ConvertLinks(s0: string) returns (s: string)
    ensures s == LinksFinal(s0) && FindElement(s, "<a ", "</a>").None?
  {
    s := s0;
    while true
      invariant LinksFinal(s) == LinksFinal(s0)
      decreases Count('<', s)
    {
      var next := FindElement(s, "<a ", "</a>");
      if next.None? {
        return;
      }
      var e := next.value;
      RelinkTakesTag(s, e);
      var text := s[e.open..e.close];
      var href := Href(s[e.start..e.open]);
      if href != "" {
        s := s[..e.start] + ("[" + text + "](" + href + ")") + s[e.end..];
      } else {
        s := s[..e.start] + text + s[e.end..];
      }
    }
  }

  /** The address is what stands between the first `href="`, in any case, and the next quote. */
  lemma HrefIs(before: string, name: string, address: string, after: string)
    requires Lower(name) == "href=\"" && address != "" && '"' !in address
    requires Index(Lower(before + name + address + "\"" + after), "href=\"") == |before|
    ensures Href(before + name + address + "\"" + after) == address
  {
    var tag, start := before + name + address + "\"" + after, |before| + 6;
    assert |name| == 6;
    assert tag == (before + name) + (address + ("\"" + after));
    var tail := tag[start..];
    assert tail == address + ("\"" + after);
    assert tail[|address|..|address| + 1] == "\"";
    forall j | 0 <= j < |address| ensures !OccursAt(tail, "\"", j) {
      assert tail[j..j + 1][0] == address[j];
    }
    IndexIs(tail, "\"", |address|);
    assert tag[start..start + |address|] == address;
  }

  /** A complete link, the first in the text: the first opening tag is at a, its bracket closes before b,
      and the first closing tag after that is at c. With an address it becomes `[text](address)`, without
      one its text, and rewriting goes on. */
  lemma LinkExpands(s: string, a: nat, b: nat, c: nat, text: string, address: string, t: string)
    requires Index(Lower(s), "<a ") == a && a < b <= c && c + 4 <= |s|
    requires Index(s[a..], ">") == b - a - 1 && Index(Lower(s[b..]), "</a>") == c - b
    requires text == s[b..c] && address == Href(s[a..b])
    requires t == if address != "" then s[..a] + "[" + text + "](" + address + ")" + s[c + 4..]
                  else s[..a] + text + s[c + 4..]
    ensures LinksFinal(s) == LinksFinal(t)
  {
    FoundAt(s, Element(a, b, c, c + 4), "<a ", "</a>");
    RelinkIs(s, Element(a, b, c, c + 4), text, address, t);
    LinksFinalNext(s, Element(a, b, c, c + 4), t);
  }

  lemma RelinkIs(s: string, e: Element, text: string, address: string, t: string)
    requires ElementIn(s, e) && text == s[e.open..e.close] && address == Href(s[e.start..e.open])
    requires t == if address != "" then s[..e.start] + "[" + text + "](" + address + ")" + s[e.end..]
                  else s[..e.start] + text + s[e.end..]
    ensures t == Relink(s, e)
  {
    if address != "" {
      Regroup(s[..e.start], "[", text, "](", address, ")", s[e.end..]);
    }
  }

  lemma Regroup(a: string, b: string, c: string, d: string, e: string, f: string, g: string)
    ensures a + b + c + d + e + f + g == a + (b + c + d + e + f) + g
  {
  }

  lemma LinksFinalNext(s: string, e: Element, t: string)
    requires FindElement(s, "<a ", "</a>") == Some(e) && t == Relink(s, e)
    ensures LinksFinal(s) == LinksFinal(t)
  {
  }
}
