/**
 `named_to_positional`: `$name` placeholders become `$1, $2, ...` by one
 `str::replace` per bind, in the iteration order of the bind object.
 */
module NamedBinds {
  import opened Wrappers

  predicate IsIdentChar(c: char) {
    'a' <= c <= 'z' || 'A' <= c <= 'Z' || '0' <= c <= '9' || c == '_'
  }

  predicate IsDigit(c: char) { '0' <= c <= '9' }

  /** In ASCII: letters, digits and the underscore. */
  lemma IdentCharsAre(c: char)
    ensures IsDigit(c) <==> 48 <= c as int <= 57
    ensures IsIdentChar(c) <==> 97 <= c as int <= 122 || 65 <= c as int <= 90 || 48 <= c as int <= 57 || c as int == 95
  {
  }

  predicate IsIdentifier(s: string) {
    s != "" && !IsDigit(s[0]) && forall i | 0 <= i < |s| :: IsIdentChar(s[i])
  }

  function Digit(d: nat): char
    requires d < 10
  {
    ['0', '1', '2', '3', '4', '5', '6', '7', '8', '9'][d]
  }

  /** Decimal digits of a number. */
  function Decimal(n: nat): (r: string)
    ensures r != "" && forall i | 0 <= i < |r| :: IsDigit(r[i])
  {
    if n < 10 then [Digit(n)] else Decimal(n / 10) + [Digit(n % 10)]
  }

  /** The number that a string of digits stands for. */
  function Value(s: string): int {
    if s == "" then 0 else 10 * Value(s[..|s| - 1]) + (s[|s| - 1] as int - '0' as int)
  }

  /** Decimal digits without a leading zero. */
  lemma {:induction false} DecimalValue(n: nat)
    ensures Value(Decimal(n)) == n && (n > 0 ==> Decimal(n)[0] != '0')
  {
    if n < 10 {
      assert [Digit(n)][..0] == "";
    } else {
      DecimalValue(n / 10);
      assert Decimal(n)[..|Decimal(n)| - 1] == Decimal(n / 10);
    }
  }

  /** So two indices never share a text. */
  lemma DecimalInjective(m: nat, n: nat)
    requires Decimal(m) == Decimal(n)
    ensures m == n
  {
    DecimalValue(m);
    DecimalValue(n);
  }

  /** Rust's `str::replace`: non-overlapping matches, from the left. */
  function Replace(s: string, pat: string, to: string): string
    requires pat != ""
  {
    if s == "" then ""
    else if pat <= s then to + Replace(s[|pat|..], pat, to)
    else [s[0]] + Replace(s[1..], pat, to)
  }

  /** Without a match the text stays ... */
  lemma {:induction false} ReplaceNothing(s: string, pat: string, to: string)
    requires pat != "" && forall i | 0 <= i < |s| :: !(pat <= s[i..])
    ensures Replace(s, pat, to) == s
  {
    if s != "" {
      assert !(pat <= s[0..]);
      forall i | 0 <= i < |s[1..]|
        ensures !(pat <= s[1..][i..])
      {
        assert s[1..][i..] == s[i + 1..];
      }
      ReplaceNothing(s[1..], pat, to);
    }
  }

  /** ... and otherwise the leftmost match is replaced and the text behind it treated alike. */
  lemma {:induction false} ReplaceLeftmost(u: string, v: string, pat: string, to: string)
    requires pat != "" && forall i | 0 <= i < |u| :: !(pat <= (u + pat + v)[i..])
    ensures Replace(u + pat + v, pat, to) == u + to + Replace(v, pat, to)
  {
    var s := u + pat + v;
    if u == "" {
      assert s == pat + v && s[|pat|..] == v;
    } else {
      assert s[0..] == s && s[1..] == u[1..] + pat + v;
      forall i | 0 <= i < |u[1..]|
        ensures !(pat <= (u[1..] + pat + v)[i..])
      {
        assert (u[1..] + pat + v)[i..] == s[i + 1..];
      }
      ReplaceLeftmost(u[1..], v, pat, to);
    }
  }

  /** The text after the first `n` binds have been replaced. */
  function Sequential(query: string, names: seq<string>, n: nat): string
    requires n <= |names|
  {
    if n == 0 then query
    else Replace(Sequential(query, names, n - 1), "$" + names[n - 1], "$" + Decimal(n))
  }

  datatype Binds<V> = Object(entries: seq<(string, V)>) | NotAnObject

  function Names<V>(entries: seq<(string, V)>): (names: seq<string>)
    ensures |names| == |entries| && forall i | 0 <= i < |entries| :: names[i] == entries[i].0
  {
    seq(|entries|, i requires 0 <= i < |entries| => entries[i].0)
  }

  method NamedToPositional<V>(query: string, binds: Binds<V>) returns (r: Result<(string, seq<V>), string>)
    ensures binds.NotAnObject? ==> r == Err("Binds must be a JSON object")
    ensures binds.Object? ==>
              && r.Ok?
              && r.value.0 == Sequential(query, Names(binds.entries), |binds.entries|)
              && |r.value.1| == |binds.entries|
              && forall i | 0 <= i < |binds.entries| :: r.value.1[i] == binds.entries[i].1
  {
    if binds.NotAnObject? { return Err("Binds must be a JSON object"); }
    var pgQuery, values := query, [];
    for i := 0 to |binds.entries|
      invariant pgQuery == Sequential(query, Names(binds.entries), i)
      invariant |values| == i && forall k | 0 <= k < i :: values[k] == binds.entries[k].1
    {
      var named := "$" + binds.entries[i].0;
      var positional := "$" + Decimal(i + 1);
      pgQuery := Replace(pgQuery, named, positional);
      values := values + [binds.entries[i].1];
    }
    r := Ok((pgQuery, values));
  }

  // ----- the specification: all placeholders at once -----

  /** The longest run of identifier characters at the start. */
  function IdentRun(s: string): (r: string)
    ensures r <= s && forall i | 0 <= i < |r| :: IsIdentChar(r[i])
    ensures |r| < |s| ==> !IsIdentChar(s[|r|])
  {
    if s == "" || !IsIdentChar(s[0]) then "" else [s[0]] + IdentRun(s[1..])
  }

  /** The position of a name among the first `n`, or `n`. */
  function IndexOf(names: seq<string>, n: nat, name: string): (k: nat)
    requires n <= |names|
    ensures k <= n && (k < n ==> names[k] == name) && forall i | 0 <= i < k :: names[i] != name
  {
    if n == 0 then 0
    else
      var k := IndexOf(names, n - 1, name);
      if k < n - 1 then k else if names[n - 1] == name then n - 1 else n
  }

  /** The first of the first `n` names that is a prefix of the run, or `n`. */
  function FirstPrefix(names: seq<string>, n: nat, run: string): (k: nat)
    requires n <= |names|
    ensures k <= n && (k < n ==> names[k] <= run) && forall i | 0 <= i < k :: !(names[i] <= run)
  {
    if n == 0 then 0
    else
      var k := FirstPrefix(names, n - 1, run);
      if k < n - 1 then k else if names[n - 1] <= run then n - 1 else n
  }

  /** How a placeholder is rewritten: by the bind of its whole name, or by the first bind that is a prefix of it. */
  datatype Style = Whole | Prefix

  /** What a placeholder is written as, after the dollar sign, when the first `n` names are bound. */
  function Text(style: Style, run: string, names: seq<string>, n: nat): string
    requires n <= |names|
  {
    var k := if style.Whole? then IndexOf(names, n, run) else FirstPrefix(names, n, run);
    if k < n then Decimal(k + 1) + run[|names[k]|..] else run
  }

  /** One scan that rewrites each placeholder and copies everything else. */
  function Rewrite(style: Style, query: string, names: seq<string>, n: nat): string
    requires n <= |names|
    decreases |query|
  {
    if query == "" then ""
    else if query[0] != '$' then [query[0]] + Rewrite(style, query[1..], names, n)
    else
      var run := IdentRun(query[1..]);
      "$" + Text(style, run, names, n) + Rewrite(style, query[1 + |run|..], names, n)
  }

  /** The intended meaning: a placeholder whose whole name is bound becomes the index of its value. */
  function Substitute(query: string, names: seq<string>): string {
    Rewrite(Whole, query, names, |names|)
  }

  ghost predicate Identifiers(names: seq<string>) {
    forall k | 0 <= k < |names| :: IsIdentifier(names[k])
  }

  // ----- one replacement does one name -----

  /** Text without a dollar sign is copied by a replacement whose pattern starts with one. */
  lemma {:induction false} ReplaceSkips(text: string, rest: string, pat: string, to: string)
    requires pat != "" && pat[0] == '$' && '$' !in text
    ensures Replace(text + rest, pat, to) == text + Replace(rest, pat, to)
  {
    if text == "" {
      assert text + rest == rest;
    } else {
      var s := text + rest;
      assert s[0] == text[0] && s[1..] == text[1..] + rest;
      ReplaceSkips(text[1..], rest, pat, to);
    }
  }

  /** Rewritten text never continues an identifier run that had ended. */
  lemma RewriteStart(style: Style, rest: string, names: seq<string>, n: nat)
    requires n <= |names|
    ensures rest == "" ==> Rewrite(style, rest, names, n) == ""
    ensures rest != "" ==> Rewrite(style, rest, names, n) != "" && Rewrite(style, rest, names, n)[0] == rest[0]
  {
  }

  /** A name that matches at a placeholder is a prefix of that placeholder's run. */
  lemma MatchIsPrefix(name: string, run: string, tail: string)
    requires IsIdentifier(name) && (tail == "" || !IsIdentChar(tail[0]))
    requires "$" + name <= "$" + run + tail
    ensures name <= run
  {
    var s := "$" + run + tail;
    assert forall i | 0 <= i < |name| :: name[i] == ("$" + name)[i + 1] == s[i + 1];
    assert forall i | 0 <= i < |run| :: s[i + 1] == run[i];
    assert tail != "" ==> s[|run| + 1] == tail[0];
  }

  /** A placeholder already replaced, or not this one: copied. */
  lemma CopiedPlaceholder(text: string, tail: string, name: string, to: string)
    requires '$' !in text && !("$" + name <= "$" + text + tail)
    ensures Replace("$" + text + tail, "$" + name, to) == "$" + text + Replace(tail, "$" + name, to)
  {
    var s := "$" + text + tail;
    assert s[1..] == text + tail;
    ReplaceSkips(text, tail, "$" + name, to);
    assert "$" + (text + Replace(tail, "$" + name, to)) == "$" + text + Replace(tail, "$" + name, to);
  }

  /** A placeholder that the name is a prefix of: the name becomes the index, the rest of the run stays. */
  lemma ReplacedPlaceholder(name: string, more: string, tail: string, index: string)
    requires '$' !in more
    ensures Replace("$" + (name + more) + tail, "$" + name, "$" + index) == "$" + (index + more) + Replace(tail, "$" + name, "$" + index)
  {
    var s := "$" + (name + more) + tail;
    assert s[..|name| + 1] == "$" + name && s[|name| + 1..] == more + tail;
    ReplaceSkips(more, tail, "$" + name, "$" + index);
    assert "$" + index + (more + Replace(tail, "$" + name, "$" + index)) == "$" + (index + more) + Replace(tail, "$" + name, "$" + index);
  }

  /** A rewritten placeholder starts with a digit, so no later name matches it. */
  lemma AlreadyReplaced(run: string, tail: string, names: seq<string>, n: nat)
    requires Identifiers(names) && n < |names| && FirstPrefix(names, n, run) < n && '$' !in run
    ensures Replace("$" + Text(Prefix, run, names, n) + tail, "$" + names[n], "$" + Decimal(n + 1))
            == "$" + Text(Prefix, run, names, n + 1) + Replace(tail, "$" + names[n], "$" + Decimal(n + 1))
  {
    var text, name := Text(Prefix, run, names, n), names[n];
    assert text[0] == Decimal(FirstPrefix(names, n, run) + 1)[0];
    assert ("$" + name)[1] == name[0] && ("$" + text + tail)[1] == text[0];
    CopiedPlaceholder(text, tail, name, "$" + Decimal(n + 1));
  }

  lemma NotYetReplaced(run: string, tail: string, names: seq<string>, n: nat)
    requires Identifiers(names) && n < |names| && FirstPrefix(names, n, run) == n
    requires '$' !in run && (tail == "" || !IsIdentChar(tail[0]))
    ensures Replace("$" + Text(Prefix, run, names, n) + tail, "$" + names[n], "$" + Decimal(n + 1))
            == "$" + Text(Prefix, run, names, n + 1) + Replace(tail, "$" + names[n], "$" + Decimal(n + 1))
  {
    var name := names[n];
    if name <= run {
      assert run == name + run[|name|..];
      ReplacedPlaceholder(name, run[|name|..], tail, Decimal(n + 1));
    } else {
      if "$" + name <= "$" + run + tail { MatchIsPrefix(name, run, tail); }
      CopiedPlaceholder(run, tail, name, "$" + Decimal(n + 1));
    }
  }

  lemma RewriteUnfold(style: Style, query: string, names: seq<string>, n: nat)
    requires n <= |names| && query != "" && query[0] == '$'
    ensures var run := IdentRun(query[1..]);
            Rewrite(style, query, names, n) == "$" + Text(style, run, names, n) + Rewrite(style, query[1 + |run|..], names, n)
  {
  }

  /** The n-th replacement turns the rewriting by n names into that by n + 1. */
  lemma {:induction false} OneName(query: string, names: seq<string>, n: nat)
    requires Identifiers(names) && n < |names|
    ensures Replace(Rewrite(Prefix, query, names, n), "$" + names[n], "$" + Decimal(n + 1)) == Rewrite(Prefix, query, names, n + 1)
    decreases |query|
  {
    if query == "" {
    } else if query[0] != '$' {
      OneName(query[1..], names, n);
      var s := Rewrite(Prefix, query, names, n);
      assert s[0] == query[0] && s[1..] == Rewrite(Prefix, query[1..], names, n);
      assert ("$" + names[n])[0] == '$';
    } else {
      var run := IdentRun(query[1..]);
      var rest := query[1 + |run|..];
      OneName(rest, names, n);
      RewriteStart(Prefix, rest, names, n);
      RewriteUnfold(Prefix, query, names, n);
      RewriteUnfold(Prefix, query, names, n + 1);
      if FirstPrefix(names, n, run) < n {
        AlreadyReplaced(run, Rewrite(Prefix, rest, names, n), names, n);
      } else {
        NotYetReplaced(run, Rewrite(Prefix, rest, names, n), names, n);
      }
    }
  }

  lemma {:induction false} RewriteNothing(query: string, names: seq<string>)
    ensures Rewrite(Prefix, query, names, 0) == query
    decreases |query|
  {
    if query != "" {
      if query[0] != '$' {
        RewriteNothing(query[1..], names);
      } else {
        var run := IdentRun(query[1..]);
        RewriteNothing(query[1 + |run|..], names);
        assert query == "$" + run + query[1 + |run|..];
      }
    }
  }

  /** For every query: replacing the binds one after the other rewrites each placeholder by the first bind that is a prefix of it. */
  lemma {:induction false} SequentialIsFirstPrefix(query: string, names: seq<string>, n: nat)
    requires Identifiers(names) && n <= |names|
    ensures Sequential(query, names, n) == Rewrite(Prefix, query, names, n)
  {
    if n == 0 {
      RewriteNothing(query, names);
    } else {
      SequentialIsFirstPrefix(query, names, n - 1);
      OneName(query, names, n - 1);
    }
  }

  // ----- when that is what is meant -----

  predicate SameText(run: string, names: seq<string>) {
    Text(Prefix, run, names, |names|) == Text(Whole, run, names, |names|)
  }

  /** Both ways of rewriting give the placeholder at `i`, if one starts there, the same text. */
  predicate SameAt(query: string, names: seq<string>, i: nat)
    requires i < |query|
  {
    query[i] == '$' ==> SameText(IdentRun(query[i + 1..]), names)
  }

  ghost predicate SameTexts(query: string, names: seq<string>) {
    forall i | 0 <= i < |query| :: SameAt(query, names, i)
  }

  lemma SameAtShifted(query: string, names: seq<string>, m: nat, i: nat)
    requires m + i < |query|
    ensures SameAt(query[m..], names, i) <==> SameAt(query, names, m + i)
  {
    assert query[m..][i + 1..] == query[m + i + 1..];
  }

  /** The length of the first piece of the query: a character, or a placeholder with its dollar sign. */
  function FirstPiece(query: string): (m: nat)
    requires query != ""
    ensures 1 <= m <= |query|
  {
    if query[0] == '$' then 1 + |IdentRun(query[1..])| else 1
  }

  /** A placeholder's run holds no further dollar sign, so the pieces can be judged one by one. */
  lemma SameTextsByPiece(query: string, names: seq<string>)
    requires query != ""
    ensures SameTexts(query, names) <==> SameAt(query, names, 0) && SameTexts(query[FirstPiece(query)..], names)
  {
    var m := FirstPiece(query);
    var rest := query[m..];
    forall i | 1 <= i < m ensures SameAt(query, names, i) {
      assert query[i] == IdentRun(query[1..])[i - 1];
    }
    forall i | 0 <= i < |rest| ensures SameAt(rest, names, i) <==> SameAt(query, names, m + i) {
      SameAtShifted(query, names, m, i);
    }
    if SameAt(query, names, 0) && SameTexts(rest, names) {
      forall i | 0 <= i < |query| ensures SameAt(query, names, i) {
        if m <= i { assert SameAt(rest, names, i - m); }
      }
    }
  }

  lemma TextIsIdent(style: Style, run: string, names: seq<string>)
    requires forall i | 0 <= i < |run| :: IsIdentChar(run[i])
    ensures var t := Text(style, run, names, |names|); forall i | 0 <= i < |t| :: IsIdentChar(t[i])
  {
  }

  lemma {:induction false} RunOf(text: string, rest: string)
    requires (forall i | 0 <= i < |text| :: IsIdentChar(text[i])) && (rest == "" || !IsIdentChar(rest[0]))
    ensures IdentRun(text + rest) == text
  {
    if text == "" {
      assert text + rest == rest;
    } else {
      assert (text + rest)[1..] == text[1..] + rest;
      RunOf(text[1..], rest);
    }
  }

  /** Identifier text followed by something else can be read back in one way only. */
  lemma SplitsAlike(t: string, rest: string, t': string, rest': string)
    requires (forall i | 0 <= i < |t| :: IsIdentChar(t[i])) && (rest == "" || !IsIdentChar(rest[0]))
    requires (forall i | 0 <= i < |t'| :: IsIdentChar(t'[i])) && (rest' == "" || !IsIdentChar(rest'[0]))
    requires "$" + t + rest == "$" + t' + rest'
    ensures t == t' && rest == rest'
  {
    assert ("$" + t + rest)[1..] == t + rest && ("$" + t' + rest')[1..] == t' + rest';
    RunOf(t, rest);
    RunOf(t', rest');
    assert (t + rest)[|t|..] == rest && (t' + rest')[|t|..] == rest';
  }

  /** At a placeholder, equal results mean equal pieces and equal rests. */
  lemma AgreeAtPlaceholder(query: string, names: seq<string>)
    requires query != "" && query[0] == '$'
    ensures var rest := query[FirstPiece(query)..];
            Rewrite(Prefix, query, names, |names|) == Rewrite(Whole, query, names, |names|) <==>
            SameAt(query, names, 0) && Rewrite(Prefix, rest, names, |names|) == Rewrite(Whole, rest, names, |names|)
  {
    var run := IdentRun(query[1..]);
    var rest := query[1 + |run|..];
    RewriteUnfold(Prefix, query, names, |names|);
    RewriteUnfold(Whole, query, names, |names|);
    if Rewrite(Prefix, query, names, |names|) == Rewrite(Whole, query, names, |names|) {
      TextIsIdent(Prefix, run, names);
      TextIsIdent(Whole, run, names);
      RewriteStart(Prefix, rest, names, |names|);
      RewriteStart(Whole, rest, names, |names|);
      SplitsAlike(Text(Prefix, run, names, |names|), Rewrite(Prefix, rest, names, |names|),
                  Text(Whole, run, names, |names|), Rewrite(Whole, rest, names, |names|));
    }
  }

  lemma {:induction false} RewritesAgree(query: string, names: seq<string>)
    ensures Rewrite(Prefix, query, names, |names|) == Rewrite(Whole, query, names, |names|) <==> SameTexts(query, names)
    decreases |query|
  {
    if query != "" {
      RewritesAgree(query[FirstPiece(query)..], names);
      SameTextsByPiece(query, names);
      if query[0] == '$' {
        AgreeAtPlaceholder(query, names);
      } else {
        var x, y := Rewrite(Prefix, query, names, |names|), Rewrite(Whole, query, names, |names|);
        assert x[1..] == Rewrite(Prefix, query[1..], names, |names|) && y[1..] == Rewrite(Whole, query[1..], names, |names|);
      }
    }
  }

  /**
   Harmless: the first bind that is a prefix of the placeholder, if any, is the
   placeholder itself; or its index followed by the rest of the placeholder
   happens to spell the index that is meant, as `$1` and `0` spell `$10`.
   */
  predicate Harmless(run: string, names: seq<string>) {
    var k, j := FirstPrefix(names, |names|, run), IndexOf(names, |names|, run);
    k == |names| || names[k] == run || (j < |names| && Decimal(k + 1) + run[|names[k]|..] == Decimal(j + 1))
  }

  lemma HarmlessIffSameText(run: string, names: seq<string>)
    requires Identifiers(names)
    ensures Harmless(run, names) <==> SameText(run, names)
  {
    var k, j := FirstPrefix(names, |names|, run), IndexOf(names, |names|, run);
    if j < |names| {
      assert run[|names[j]|..] == "" && k <= j;
    }
    if k < |names| && j == |names| {
      assert (Decimal(k + 1) + run[|names[k]|..])[0] == Decimal(k + 1)[0] && run[0] == names[k][0];
    }
  }

  /** The exact condition, for every query and bind order: each placeholder that the query uses is harmless. */
  lemma SimultaneousIffHarmless(query: string, names: seq<string>)
    requires Identifiers(names)
    ensures Sequential(query, names, |names|) == Substitute(query, names) <==>
            forall i | 0 <= i < |query| && query[i] == '$' :: Harmless(IdentRun(query[i + 1..]), names)
  {
    SequentialIsFirstPrefix(query, names, |names|);
    RewritesAgree(query, names);
    forall i | 0 <= i < |query|
      ensures SameAt(query, names, i) <==> (query[i] == '$' ==> Harmless(IdentRun(query[i + 1..]), names))
    {
      HarmlessIffSameText(IdentRun(query[i + 1..]), names);
    }
  }

  /** No bind before the placeholder's own is a proper prefix of it, and none at all if it is unbound. */
  ghost predicate NotPreempted(run: string, names: seq<string>) {
    forall k | 0 <= k < |names| && names[k] <= run && names[k] != run :: exists j | 0 <= j < k :: names[j] == run
  }

  lemma NotPreemptedIsHarmless(run: string, names: seq<string>)
    requires NotPreempted(run, names)
    ensures Harmless(run, names)
  {
  }

  /** With up to nine binds no index can be spelled by accident. */
  lemma HarmlessIsNotPreempted(run: string, names: seq<string>)
    requires |names| <= 9 && Harmless(run, names)
    ensures NotPreempted(run, names)
  {
    var j := IndexOf(names, |names|, run);
    if j < |names| { OneDigit(j + 1); }
  }

  lemma OneDigit(d: nat)
    requires d < 10
    ensures |Decimal(d)| == 1
  {
  }

  /** Replacing one after the other is substituting all at once, if no bind preempts a used placeholder ... */
  lemma SequentialIsSimultaneous(query: string, names: seq<string>)
    requires Identifiers(names)
    requires forall i | 0 <= i < |query| && query[i] == '$' :: NotPreempted(IdentRun(query[i + 1..]), names)
    ensures Sequential(query, names, |names|) == Substitute(query, names)
  {
    SimultaneousIffHarmless(query, names);
    forall i | 0 <= i < |query| && query[i] == '$' ensures Harmless(IdentRun(query[i + 1..]), names) {
      NotPreemptedIsHarmless(IdentRun(query[i + 1..]), names);
    }
  }

  /** ... and with up to nine binds only then: a preempted placeholder at position `i` spoils any query. */
  lemma PreemptedIsSplit(query: string, names: seq<string>, i: nat)
    requires Identifiers(names) && |names| <= 9
    requires i < |query| && query[i] == '$' && !NotPreempted(IdentRun(query[i + 1..]), names)
    ensures Sequential(query, names, |names|) != Substitute(query, names)
  {
    SimultaneousIffHarmless(query, names);
    if Harmless(IdentRun(query[i + 1..]), names) { HarmlessIsNotPreempted(IdentRun(query[i + 1..]), names); }
  }

  /**
   For example a bind that is a proper prefix of a placeholder and comes first,
   as it does in a sorted object: `$ab` becomes `$1b` where `$2` is meant.
   */
  lemma PrefixSplitsPlaceholder(a: string, b: string)
    requires IsIdentifier(a) && b != "" && forall i | 0 <= i < |b| :: IsIdentChar(b[i])
    ensures Sequential("$" + (a + b), [a, a + b], 2) == "$1" + b
    ensures Substitute("$" + (a + b), [a, a + b]) == "$2"
  {
    var run, names := a + b, [a, a + b];
    SequentialIsFirstPrefix("$" + run, names, 2);
    OnePlaceholder(Prefix, run, names);
    OnePlaceholder(Whole, run, names);
    SplitTexts(a, b, run, names);
    Joined(b);
  }

  lemma Joined(b: string)
    ensures "$" + ("1" + b) == "$1" + b && "$" + "2" == "$2"
  {
  }

  lemma SplitTexts(a: string, b: string, run: string, names: seq<string>)
    requires b != "" && run == a + b && names == [a, run]
    ensures Text(Prefix, run, names, 2) == "1" + b && Text(Whole, run, names, 2) == "2"
  {
    assert FirstPrefix(names, 1, run) == 0 && IndexOf(names, 1, run) == 1;
    assert run[|a|..] == b && run[|run|..] == "";
    assert Decimal(1) == "1" && Decimal(2) == "2" && Decimal(2) + "" == Decimal(2);
  }

  lemma OnePlaceholder(style: Style, run: string, names: seq<string>)
    requires forall i | 0 <= i < |run| :: IsIdentChar(run[i])
    ensures Rewrite(style, "$" + run, names, |names|) == "$" + Text(style, run, names, |names|)
  {
    RunOf(run, "");
    assert run + "" == run && ("$" + run)[1..] == run && ("$" + run)[1 + |run|..] == "";
    RewriteUnfold(style, "$" + run, names, |names|);
  }
}
