/** One replacement rule on one text. Texts are sequences of code points; regular expressions
    are an engine that is not part of this model. */
module ReplaceRules {
  import opened Options

  type Text = seq<int>

  const LF := 10
  const CR := 13

  // ----- str.count and str.replace -----

  /** Occurrences found from the left, none overlapping another. */
  function Count(text: Text, pattern: Text): nat
    requires pattern != []
  {
    if text == [] then 0
    else if pattern <= text then 1 + Count(text[|pattern|..], pattern)
    else Count(text[1..], pattern)
  }

  /** Replace the first n of them. */
  function ReplaceFirst(text: Text, pattern: Text, replacement: Text, n: nat): Text
    requires pattern != []
  {
    if text == [] || n == 0 then text
    else if pattern <= text then replacement + ReplaceFirst(text[|pattern|..], pattern, replacement, n - 1)
    else [text[0]] + ReplaceFirst(text[1..], pattern, replacement, n)
  }

  function ReplaceAll(text: Text, pattern: Text, replacement: Text): Text
    requires pattern != []
  {
    ReplaceFirst(text, pattern, replacement, |text|)
  }

  function Join(pieces: seq<Text>, separator: Text): Text {
    if pieces == [] then []
    else if |pieces| == 1 then pieces[0]
    else pieces[0] + separator + Join(pieces[1..], separator)
  }

  /** The pattern does not occur in the text. */
  ghost predicate Without(text: Text, pattern: Text) {
    forall i :: 0 <= i <= |text| ==> !(pattern <= text[i..])
  }

  /** Up to its last element the piece starts no occurrence once the pattern follows it. */
  ghost predicate LeadsTo(piece: Text, pattern: Text) {
    forall i :: 0 <= i < |piece| ==> !(pattern <= (piece + pattern)[i..])
  }

  lemma JoinCons(x: int, pieces: seq<Text>, separator: Text)
    requires pieces != []
    ensures Join([[x] + pieces[0]] + pieces[1..], separator) == [x] + Join(pieces, separator)
  {
    var more := [[x] + pieces[0]] + pieces[1..];
    assert more[1..] == pieces[1..];
    if |pieces| > 1 {
      assert Join(more, separator) == [x] + pieces[0] + separator + Join(pieces[1..], separator);
    }
  }

  lemma JoinEmpty(pieces: seq<Text>, separator: Text)
    requires pieces != []
    ensures Join([[]] + pieces, separator) == separator + Join(pieces, separator)
  {
    var more := [[]] + pieces;
    assert more[1..] == pieces && more[0] == [];
  }

  /** The text cut at its first n occurrences of the pattern. */
  function Cut(text: Text, pattern: Text, n: nat): (r: seq<Text>)
    requires pattern != []
    ensures r != []
  {
    if text == [] || n == 0 then [text]
    else if pattern <= text then [[]] + Cut(text[|pattern|..], pattern, n - 1)
    else
      var rest := Cut(text[1..], pattern, n);
      [[text[0]] + rest[0]] + rest[1..]
  }

  /** Joined by any other text in place of the pattern, the pieces are the replaced text. */
  lemma {:induction false} CutReplaces(text: Text, pattern: Text, replacement: Text, n: nat)
    requires pattern != []
    ensures Join(Cut(text, pattern, n), replacement) == ReplaceFirst(text, pattern, replacement, n)
    decreases |text|
  {
    if text != [] && n > 0 {
      if pattern <= text {
        CutReplaces(text[|pattern|..], pattern, replacement, n - 1);
        JoinEmpty(Cut(text[|pattern|..], pattern, n - 1), replacement);
      } else {
        CutReplaces(text[1..], pattern, replacement, n);
        JoinCons(text[0], Cut(text[1..], pattern, n), replacement);
      }
    }
  }

  /** Replacing a pattern by itself changes nothing. */
  lemma {:induction false} ReplaceBySame(text: Text, pattern: Text, n: nat)
    requires pattern != []
    ensures ReplaceFirst(text, pattern, pattern, n) == text
    decreases |text|
  {
    if text != [] && n > 0 {
      if pattern <= text {
        ReplaceBySame(text[|pattern|..], pattern, n - 1);
        assert text == pattern + text[|pattern|..];
      } else {
        ReplaceBySame(text[1..], pattern, n);
      }
    }
  }

  lemma {:induction false} CutCounts(text: Text, pattern: Text, n: nat)
    requires pattern != []
    ensures |Cut(text, pattern, n)| == 1 + if n <= Count(text, pattern) then n else Count(text, pattern)
    decreases |text|
  {
    if text != [] && n > 0 {
      if pattern <= text {
        CutCounts(text[|pattern|..], pattern, n - 1);
      } else {
        CutCounts(text[1..], pattern, n);
      }
    }
  }

  /** No piece before an occurrence could have ended earlier, and when all occurrences are taken
      none is left. */
  lemma {:induction false} CutIsLeftmost(text: Text, pattern: Text, n: nat)
    requires pattern != []
    ensures forall k :: 0 <= k < |Cut(text, pattern, n)| - 1 ==> LeadsTo(Cut(text, pattern, n)[k], pattern)
    ensures n >= Count(text, pattern) ==> Without(Cut(text, pattern, n)[|Cut(text, pattern, n)| - 1], pattern)
    decreases |text|
  {
    if text == [] || n == 0 {
      if Count(text, pattern) == 0 {
        NoneCounted(text, pattern);
      }
    } else if pattern <= text {
      CutIsLeftmost(text[|pattern|..], pattern, n - 1);
    } else {
      var rest := Cut(text[1..], pattern, n);
      CutIsLeftmost(text[1..], pattern, n);
      CutReplaces(text[1..], pattern, pattern, n);
      ReplaceBySame(text[1..], pattern, n);
      FirstPiece(text, rest, pattern);
    }
  }

  /** What replacing the first n occurrences means: the text is a list of pieces joined by the
      pattern, the result is the same pieces joined by the replacement, and the cuts are the
      leftmost ones, n of them or all there are. */
  lemma ReplaceIsJoin(text: Text, pattern: Text, replacement: Text, n: nat)
    requires pattern != []
    ensures var pieces := Cut(text, pattern, n);
      && text == Join(pieces, pattern)
      && ReplaceFirst(text, pattern, replacement, n) == Join(pieces, replacement)
      && |pieces| == 1 + (if n <= Count(text, pattern) then n else Count(text, pattern))
      && (forall k :: 0 <= k < |pieces| - 1 ==> LeadsTo(pieces[k], pattern))
      && (n >= Count(text, pattern) ==> Without(pieces[|pieces| - 1], pattern))
  {
    CutReplaces(text, pattern, replacement, n);
    CutReplaces(text, pattern, pattern, n);
    ReplaceBySame(text, pattern, n);
    CutCounts(text, pattern, n);
    CutIsLeftmost(text, pattern, n);
  }

  lemma {:induction false} NoneCounted(text: Text, pattern: Text)
    requires pattern != [] && Count(text, pattern) == 0
    ensures Without(text, pattern)
  {
    if text != [] {
      NoneCounted(text[1..], pattern);
      forall i | 0 <= i <= |text| ensures !(pattern <= text[i..]) {
        assert i > 0 ==> text[i..] == text[1..][i - 1..];
      }
    }
  }

  lemma FirstPiece(text: Text, rest: seq<Text>, pattern: Text)
    requires text != [] && pattern != [] && !(pattern <= text) && rest != []
    requires text[1..] == Join(rest, pattern)
    requires |rest| > 1 ==> LeadsTo(rest[0], pattern)
    ensures |rest| > 1 ==> LeadsTo([text[0]] + rest[0], pattern)
    ensures |rest| == 1 && Without(rest[0], pattern) ==> Without([text[0]] + rest[0], pattern)
  {
    var piece := [text[0]] + rest[0];
    if |rest| > 1 {
      assert text == [text[0]] + (rest[0] + pattern + Join(rest[1..], pattern));
      assert text == piece + pattern + Join(rest[1..], pattern);
      forall i | 0 <= i < |piece| ensures !(pattern <= (piece + pattern)[i..]) {
        if i == 0 {
          assert piece + pattern <= text;
          assert (piece + pattern)[0..] == piece + pattern;
        } else {
          assert (piece + pattern)[i..] == (rest[0] + pattern)[i - 1..];
        }
      }
    } else {
      assert text == piece;
      if Without(rest[0], pattern) {
        forall i | 0 <= i <= |piece| ensures !(pattern <= piece[i..]) {
          assert i > 0 ==> piece[i..] == rest[0][i - 1..];
        }
      }
    }
  }

  // ----- newlines -----

  datatype Newline = NoNewline | Lf | CrLf | Cr | Mixed

  function NormalizeNewlines(text: Text, style: Newline): Text {
    if !style.CrLf? && !style.Cr? then text
    else
      var normalized := ReplaceAll(ReplaceAll(text, [CR, LF], [LF]), [CR], [LF]);
      ReplaceAll(normalized, [LF], if style.CrLf? then [CR, LF] else [CR])
  }

  /** Every line end, of whatever kind, as a single LF. */
  function Unified(text: Text): Text {
    if text == [] then []
    else if text[0] == CR then [LF] + Unified(if |text| > 1 && text[1] == LF then text[2..] else text[1..])
    else [text[0]] + Unified(text[1..])
  }

  /** Every line end of a text without CR written in the style. */
  function Styled(text: Text, style: Newline): Text {
    if text == [] then []
    else (if text[0] != LF then [text[0]] else if style.CrLf? then [CR, LF] else [CR]) + Styled(text[1..], style)
  }

  /** With enough of them allowed, all occurrences are replaced. */
  lemma {:induction false} EnoughIsAll(text: Text, pattern: Text, replacement: Text, n: nat, m: nat)
    requires pattern != [] && n >= |text| && m >= |text|
    ensures ReplaceFirst(text, pattern, replacement, n) == ReplaceFirst(text, pattern, replacement, m)
    decreases |text|
  {
    if text != [] {
      if pattern <= text {
        EnoughIsAll(text[|pattern|..], pattern, replacement, n - 1, m - 1);
      } else {
        EnoughIsAll(text[1..], pattern, replacement, n, m);
      }
    }
  }

  lemma ReplaceAllStep(text: Text, pattern: Text, replacement: Text)
    requires pattern != [] && text != []
    ensures ReplaceAll(text, pattern, replacement) ==
      if pattern <= text then replacement + ReplaceAll(text[|pattern|..], pattern, replacement)
      else [text[0]] + ReplaceAll(text[1..], pattern, replacement)
  {
    if pattern <= text {
      EnoughIsAll(text[|pattern|..], pattern, replacement, |text| - 1, |text| - |pattern|);
    } else {
      EnoughIsAll(text[1..], pattern, replacement, |text|, |text| - 1);
    }
  }

  lemma {:induction false} TwoReplacementsUnify(text: Text)
    ensures ReplaceAll(ReplaceAll(text, [CR, LF], [LF]), [CR], [LF]) == Unified(text)
    decreases |text|
  {
    if text != [] {
      var first := ReplaceAll(text, [CR, LF], [LF]);
      ReplaceAllStep(text, [CR, LF], [LF]);
      if [CR, LF] <= text {
        assert text[0] == [CR, LF][0] && text[1] == [CR, LF][1];
        TwoReplacementsUnify(text[2..]);
        assert first[1..] == ReplaceAll(text[2..], [CR, LF], [LF]);
      } else {
        TwoReplacementsUnify(text[1..]);
        assert first[1..] == ReplaceAll(text[1..], [CR, LF], [LF]);
        assert text[0] == CR && |text| > 1 && text[1] == LF ==> [CR, LF] <= text;
      }
      ReplaceAllStep(first, [CR], [LF]);
      assert [CR] <= first <==> first[0] == CR;
    }
  }

  lemma {:induction false} LastReplacementStyles(text: Text, style: Newline)
    requires style.CrLf? || style.Cr?
    ensures ReplaceAll(text, [LF], if style.CrLf? then [CR, LF] else [CR]) == Styled(text, style)
    decreases |text|
  {
    if text != [] {
      ReplaceAllStep(text, [LF], if style.CrLf? then [CR, LF] else [CR]);
      assert [LF] <= text <==> text[0] == LF;
      LastReplacementStyles(text[1..], style);
    }
  }

  lemma {:induction false} UnifiedHasNoCr(text: Text)
    ensures CR !in Unified(text)
    decreases |text|
  {
    if text != [] {
      UnifiedHasNoCr(if text[0] == CR && |text| > 1 && text[1] == LF then text[2..] else text[1..]);
    }
  }

  lemma {:induction false} UnifyStyled(text: Text, style: Newline)
    requires CR !in text && (style.CrLf? || style.Cr?)
    ensures Unified(Styled(text, style)) == text
    decreases |text|
  {
    if text != [] {
      UnifyStyled(text[1..], style);
      var rest := Styled(text[1..], style);
      if text[0] == LF {
        if style.CrLf? {
          assert ([CR, LF] + rest)[2..] == rest;
        } else {
          assert ([CR] + rest)[1..] == rest;
          StyledStart(text[1..], style);
        }
      } else {
        assert ([text[0]] + rest)[1..] == rest;
      }
      assert text == [text[0]] + text[1..];
    }
  }

  /** In CR style no LF is written at all. */
  lemma {:induction false} StyledStart(text: Text, style: Newline)
    requires style.Cr?
    ensures LF !in Styled(text, style)
    decreases |text|
  {
    if text != [] {
      StyledStart(text[1..], style);
    }
  }

  /** Line ends of one style only: in CRLF every LF follows a CR and every CR is followed by an
      LF; in CR there is no LF. */
  ghost predicate InStyle(text: Text, style: Newline) {
    if style.CrLf? then
      && (forall i :: 0 <= i < |text| && text[i] == LF ==> i > 0 && text[i - 1] == CR)
      && (forall i :: 0 <= i < |text| && text[i] == CR ==> i + 1 < |text| && text[i + 1] == LF)
    else LF !in text
  }

  lemma {:induction false} StyledInStyle(text: Text)
    requires CR !in text
    ensures InStyle(Styled(text, CrLf), CrLf)
    decreases |text|
  {
    if text != [] {
      StyledInStyle(text[1..]);
      var rest, all := Styled(text[1..], CrLf), Styled(text, CrLf);
      var k := if text[0] == LF then 2 else 1;
      assert all[k..] == rest;
      forall i | 0 <= i < |all| && all[i] == LF ensures i > 0 && all[i - 1] == CR {
        if i >= k {
          assert rest[i - k] == LF;
          assert i - k > 0 && rest[i - k - 1] == CR;
        }
      }
      forall i | 0 <= i < |all| && all[i] == CR ensures i + 1 < |all| && all[i + 1] == LF {
        if i >= k {
          assert rest[i - k] == CR;
          assert rest[i - k + 1] == LF;
        }
      }
    }
  }

  /** Normalizing to CRLF or CR keeps the lines and leaves no line end of another style. */
  lemma NormalizingKeepsLines(text: Text, style: Newline)
    requires style.CrLf? || style.Cr?
    ensures Unified(NormalizeNewlines(text, style)) == Unified(text)
    ensures InStyle(NormalizeNewlines(text, style), style)
  {
    TwoReplacementsUnify(text);
    LastReplacementStyles(Unified(text), style);
    UnifiedHasNoCr(text);
    UnifyStyled(Unified(text), style);
    if style.CrLf? {
      StyledInStyle(Unified(text));
    } else {
      StyledStart(Unified(text), style);
    }
  }

  // ----- rules -----

  /** A field that does not have the required type is None. */
  datatype Rule = Rule(pattern: Option<Text>, replacement: Option<Text>, count: Option<int>, literal: bool, flags: bool)

  /** Regular expressions: whether the pattern compiles, how many matches it has, and the text
      with the first n of them (all of them for 0) substituted. */
  datatype Engine = Engine(compiles: Rule -> bool, matches: (Rule, Text) -> nat, substitute: (Rule, Text, Text, nat) -> Text)

  datatype RuleOutcome = Changed(text: Text, replacements: nat) | InvalidRule | InvalidPattern | TooMany(attempted: nat)

  predicate WellTyped(rule: Rule) {
    rule.pattern.Some? && rule.pattern.value != [] && rule.replacement.Some? && rule.count.Some? && rule.count.value >= 0
  }

  predicate IsLiteral(rule: Rule) {
    rule.literal && !rule.flags
  }

  /** How many matches are looked at before the search for more is given up. */
  method CountMatches(engine: Engine, rule: Rule, text: Text, maximum: nat) returns (matches: nat)
    requires maximum > 0
    ensures matches == if engine.matches(rule, text) < maximum then engine.matches(rule, text) else maximum
  {
    matches := 0;
    while matches < engine.matches(rule, text)
      invariant matches <= engine.matches(rule, text) && matches < maximum
    {
      matches := matches + 1;
      if matches >= maximum {
        break;
      }
    }
  }

  /** How many matches the rule takes in a text when nothing limits it but its own count. */
  function Wanted(engine: Engine, rule: Rule, text: Text): nat
    requires WellTyped(rule)
  {
    var available := if IsLiteral(rule) then Count(text, rule.pattern.value) else engine.matches(rule, text);
    if rule.count.value > 0 && rule.count.value < available then rule.count.value else available
  }

  /** The text with the wanted matches replaced. */
  function Replaced(engine: Engine, rule: Rule, text: Text, newline: Newline): Text
    requires WellTyped(rule)
  {
    var replacement := NormalizeNewlines(rule.replacement.value, newline);
    if IsLiteral(rule) then ReplaceFirst(text, rule.pattern.value, replacement, Wanted(engine, rule, text))
    else engine.substitute(rule, replacement, text, rule.count.value)
  }

  /** What applying a rule must give: an error for a bad rule, an error when it wants more than
      the budget, and otherwise exactly the wanted replacements. */
  function RuleResult(engine: Engine, rule: Rule, text: Text, newline: Newline, budget: nat): (r: RuleOutcome)
    ensures r.Changed? ==> r.replacements <= budget
  {
    if !WellTyped(rule) then InvalidRule
    else if !IsLiteral(rule) && !engine.compiles(rule) then InvalidPattern
    else
      var wanted := Wanted(engine, rule, text);
      if wanted > budget then TooMany(if IsLiteral(rule) || rule.count.value > 0 then wanted else budget + 1)
      else Changed(Replaced(engine, rule, text, newline), wanted)
  }

  /** Apply one rule; both ways of counting agree with RuleResult on every budget. */
  method ApplyRule(engine: Engine, rule: Rule, text: Text, newline: Newline, budget: nat) returns (r: RuleOutcome)
    ensures r == RuleResult(engine, rule, text, newline, budget)
  {
    if rule.pattern.None? || rule.pattern.value == [] || rule.replacement.None? || rule.count.None? || rule.count.value < 0 {
      return InvalidRule;
    }
    var pattern, count := rule.pattern.value, rule.count.value;
    var replacement := NormalizeNewlines(rule.replacement.value, newline);
    if rule.literal && !rule.flags {
      var available := Count(text, pattern);
      var replacements := if count == 0 || available <= count then available else count;
      if replacements > budget {
        return TooMany(replacements);
      }
      return Changed(ReplaceFirst(text, pattern, replacement, replacements), replacements);
    }
    if !engine.compiles(rule) {
      return InvalidPattern;
    }
    var matches := CountMatches(engine, rule, text, if count > 0 then count else budget + 1);
    if matches > budget {
      return TooMany(matches);
    }
    r := Changed(engine.substitute(rule, replacement, text, count), matches);
  }
}
