/** Rewriting `?` placeholders to `$1`, `$2`, ... outside quoted text of an SQL string. */
module Placeholders {
  import opened Common

  // ------------------------------------------------------------------ a lexer automaton

  datatype Mode = Outside | Inside(quote: char)

  predicate IsQuote(c: char) { c == '\'' || c == '"' }

  predicate IsDigit(c: char) { '0' <= c <= '9' }

  function Next(m: Mode, c: char): Mode {
    match m
    case Outside => if IsQuote(c) then Inside(c) else Outside
    case Inside(q) => if c == q then Outside else m
  }

  function ModeAfter(m: Mode, s: string): Mode
    decreases s
  {
    if s == "" then m else ModeAfter(Next(m, s[0]), s[1..])
  }

  predicate IsPlaceholder(m: Mode, c: char) { m.Outside? && c == '?' }

  function Count(m: Mode, s: string): nat
    decreases s
  {
    if s == "" then 0 else (if IsPlaceholder(m, s[0]) then 1 else 0) + Count(Next(m, s[0]), s[1..])
  }

  /** Decimal digits without leading zeros. */
  function Dec(n: nat): (d: string)
    ensures |d| > 0 && forall i :: 0 <= i < |d| ==> IsDigit(d[i])
  {
    (if n < 10 then "" else Dec(n / 10)) + [DigitChar(n % 10)]
  }

  function DigitChar(d: nat): (c: char)
    requires d < 10
    ensures IsDigit(c)
  {
    ('0' as int + d) as char
  }

  function Name(k: nat): (p: string)
    ensures |p| >= 2 && p[0] == '$' && forall i :: 1 <= i < |p| ==> IsDigit(p[i])
  {
    "$" + Dec(k)
  }

  /** The automaton's output: the k-th placeholder becomes `$k`, anything else is copied. */
  function Lex(m: Mode, k: nat, s: string): string
    decreases s
  {
    if s == "" then ""
    else if IsPlaceholder(m, s[0]) then Name(k + 1) + Lex(m, k + 1, s[1..])
    else [s[0]] + Lex(Next(m, s[0]), k, s[1..])
  }

  function Rewrite(s: string): string { Lex(Outside, 0, s) }

  // ------------------------------------------------------------------ the scanner

  function Join(parts: seq<string>): string {
    if parts == [] then "" else Join(parts[..|parts| - 1]) + parts[|parts| - 1]
  }

  lemma {:induction false} Emit(want: string, parts: seq<string>, p: string, todo: string, after: string)
    requires want == Join(parts) + todo && todo == p + after
    ensures want == Join(parts + [p]) + after
  {
    assert (parts + [p])[..|parts|] == parts;
    Associative(Join(parts), p, after);
  }

  /** What is still to be written from position `i` on. */
  function From(m: Mode, k: nat, s: string, i: nat): string
    requires i <= |s|
  {
    Lex(m, k, s[i..])
  }

  lemma {:induction false} Step(m: Mode, k: nat, s: string, i: nat)
    requires i < |s|
    ensures From(m, k, s, i) == if IsPlaceholder(m, s[i]) then Name(k + 1) + From(m, k + 1, s, i + 1)
                                else [s[i]] + From(Next(m, s[i]), k, s, i + 1)
  {
    assert s[i..][1..] == s[i + 1..];
  }

  method ConvertPlaceholders(query: string) returns (converted: string)
    ensures converted == Rewrite(query)
  {
    var parts: seq<string> := [];
    var idx, i := 0, 0;
    ghost var want := Rewrite(query);
    Ends(query);
    hide From, Join, Name, Rewrite;
    while i < |query|
      invariant 0 <= i <= |query| && idx >= 0
      invariant want == Join(parts) + From(Outside, idx, query, i)
    {
      var ch := query[i];
      Step(Outside, idx, query, i);
      if ch == '?' {
        Emit(want, parts, Name(idx + 1), From(Outside, idx, query, i), From(Outside, idx + 1, query, i + 1));
        idx := idx + 1;
        parts := parts + [Name(idx)];
      } else if ch == '\'' || ch == '"' {
        var quote := ch;
        Emit(want, parts, [ch], From(Outside, idx, query, i), From(Inside(quote), idx, query, i + 1));
        parts := parts + [[ch]];
        i := i + 1;
        while i < |query| && query[i] != quote
          invariant 0 <= i <= |query|
          invariant want == Join(parts) + From(Inside(quote), idx, query, i)
        {
          Step(Inside(quote), idx, query, i);
          Emit(want, parts, [query[i]], From(Inside(quote), idx, query, i), From(Inside(quote), idx, query, i + 1));
          parts := parts + [[query[i]]];
          i := i + 1;
        }
        if i < |query| {
          Step(Inside(quote), idx, query, i);
          Emit(want, parts, [query[i]], From(Inside(quote), idx, query, i), From(Outside, idx, query, i + 1));
          parts := parts + [[query[i]]];
        } else {
          return Join(parts);
        }
      } else {
        Emit(want, parts, [ch], From(Outside, idx, query, i), From(Outside, idx, query, i + 1));
        parts := parts + [[ch]];
      }
      i := i + 1;
    }
    return Join(parts);
  }

  lemma {:induction false} Ends(s: string)
    ensures Join([]) + From(Outside, 0, s, 0) == Rewrite(s)
    ensures forall m, k :: From(m, k, s, |s|) == ""
  {
    assert s[0..] == s && s[|s|..] == "";
  }

  // ------------------------------------------------------------------ main results

  lemma {:induction false} LexAppend(m: Mode, k: nat, s: string, t: string)
    ensures Lex(m, k, s + t) == Lex(m, k, s) + Lex(ModeAfter(m, s), k + Count(m, s), t)
    decreases s
  {
    if s == "" {
      assert s + t == t;
    } else {
      assert (s + t)[1..] == s[1..] + t;
      LexAppend(Next(m, s[0]), if IsPlaceholder(m, s[0]) then k + 1 else k, s[1..], t);
    }
  }

  /** Whether position `p` lies outside quoted text, terminated or not. */
  predicate Unquoted(s: string, p: nat)
    requires p < |s|
  {
    ModeAfter(Outside, s[..p]).Outside?
  }

  /**
   Position by position: an unquoted `?` becomes `$k` where k - 1 is the number of unquoted `?`
   before it, and every other character is copied.
   */
  lemma {:induction false} PositionWise(s: string, p: nat)
    requires p < |s|
    ensures Rewrite(s[..p + 1]) == Rewrite(s[..p]) +
            if Unquoted(s, p) && s[p] == '?' then Name(Count(Outside, s[..p]) + 1) else [s[p]]
    ensures Rewrite(s[..p + 1]) <= Rewrite(s)
  {
    var m := ModeAfter(Outside, s[..p]);
    var k := Count(Outside, s[..p]);
    assert s[..p + 1] == s[..p] + [s[p]];
    LexAppend(Outside, 0, s[..p], [s[p]]);
    assert Lex(m, k, [s[p]]) == if IsPlaceholder(m, s[p]) then Name(k + 1) else [s[p]];
    assert s == s[..p + 1] + s[p + 1..];
    LexAppend(Outside, 0, s[..p + 1], s[p + 1..]);
  }

  lemma {:induction false} CountAppend(m: Mode, s: string, t: string)
    ensures Count(m, s + t) == Count(m, s) + Count(ModeAfter(m, s), t)
    ensures ModeAfter(m, s + t) == ModeAfter(ModeAfter(m, s), t)
    decreases s
  {
    if s == "" {
      assert s + t == t;
    } else {
      assert (s + t)[1..] == s[1..] + t;
      CountAppend(Next(m, s[0]), s[1..], t);
    }
  }

  lemma {:induction false} DigitsAreInert(d: string)
    requires forall i :: 0 <= i < |d| ==> IsDigit(d[i])
    ensures Count(Outside, d) == 0 && ModeAfter(Outside, d) == Outside
  {
    if d != "" {
      DigitsAreInert(d[1..]);
    }
  }

  /** The output has no placeholder left and the quoting structure of the input. */
  lemma {:induction false} NothingLeft(m: Mode, k: nat, s: string)
    ensures Count(m, Lex(m, k, s)) == 0
    ensures ModeAfter(m, Lex(m, k, s)) == ModeAfter(m, s)
    decreases s
  {
    if s != "" {
      if IsPlaceholder(m, s[0]) {
        var name, rest := Name(k + 1), Lex(m, k + 1, s[1..]);
        NothingLeft(m, k + 1, s[1..]);
        DigitsAreInert(name[1..]);
        CountAppend(m, name, rest);
      } else {
        var rest := Lex(Next(m, s[0]), k, s[1..]);
        NothingLeft(Next(m, s[0]), k, s[1..]);
        assert ([s[0]] + rest)[1..] == rest;
      }
    }
  }

  lemma {:induction false} NoPlaceholderNoChange(m: Mode, k: nat, s: string)
    ensures Count(m, s) == 0 ==> Lex(m, k, s) == s
    ensures |Lex(m, k, s)| >= |s| + Count(m, s)
    decreases s
  {
    if s != "" {
      NoPlaceholderNoChange(Next(m, s[0]), if IsPlaceholder(m, s[0]) then k + 1 else k, s[1..]);
    }
  }

  /** A string is left alone exactly when it has no unquoted `?`. */
  lemma {:induction false} UnchangedExactly(s: string)
    ensures Rewrite(s) == s <==> Count(Outside, s) == 0
  {
    NoPlaceholderNoChange(Outside, 0, s);
  }

  lemma {:induction false} Idempotent(s: string)
    ensures Rewrite(Rewrite(s)) == Rewrite(s)
  {
    NothingLeft(Outside, 0, s);
    UnchangedExactly(Rewrite(s));
  }

  // ------------------------------------------------------------------ which characters quote

  lemma {:induction false} InsideIsCopied(q: char, k: nat, t: string)
    requires IsQuote(q) && q !in t
    ensures Lex(Inside(q), k, t) == t && ModeAfter(Inside(q), t) == Inside(q) && Count(Inside(q), t) == 0
    decreases t
  {
    if t != "" {
      InsideIsCopied(q, k, t[1..]);
    }
  }

  /** Text between two single or two double quotes is copied, whatever it holds; so is a quotation that never ends. */
  lemma {:induction false} QuotationIsCopied(q: char, t: string, rest: string)
    requires q == '\'' || q == '"'
    requires q !in t
    ensures Rewrite([q] + t) == [q] + t
    ensures Rewrite([q] + t + [q] + rest) == [q] + t + [q] + Rewrite(rest)
  {
    hide Lex, ModeAfter, Count;
    var tail := [q] + rest;
    InsideIsCopied(q, 0, t);
    LexOne(Outside, 0, q, t);
    LexOne(Outside, 0, q, t + tail);
    LexAppend(Inside(q), 0, t, tail);
    LexOne(Inside(q), 0, q, rest);
    Regrouped([q], t, [q], rest);
    Regrouped([q], t, [q], Rewrite(rest));
  }

  lemma {:induction false} Regrouped(a: string, b: string, c: string, d: string)
    ensures a + (b + (c + d)) == a + b + c + d
  {
    Associative(b, c, d);
    Associative(a, b + c, d);
    Associative(a, b, c);
  }

  /** Outside quotations only `?` is rewritten, and the first one becomes `$1`. */
  lemma {:induction false} PlainIsCopied(c: char, rest: string)
    ensures c != '?' && c != '\'' && c != '"' ==> Rewrite([c] + rest) == [c] + Rewrite(rest)
    ensures c == '?' ==> "$1" <= Rewrite([c] + rest)
  {
    LexOne(Outside, 0, c, rest);
    assert Dec(1) == "1";
  }

  lemma {:induction false} LexOne(m: Mode, k: nat, c: char, rest: string)
    ensures Lex(m, k, [c] + rest) ==
            if IsPlaceholder(m, c) then Name(k + 1) + Lex(m, k + 1, rest) else [c] + Lex(Next(m, c), k, rest)
  {
    assert ([c] + rest)[1..] == rest;
  }

  // ------------------------------------------------------------------ what the server reads

  /** The length of the run of digits at the front. */
  function DigitRun(s: string): (n: nat)
    ensures n <= |s| && forall i :: 0 <= i < n ==> IsDigit(s[i])
    ensures n < |s| ==> !IsDigit(s[n])
  {
    if s == "" || !IsDigit(s[0]) then 0 else 1 + DigitRun(s[1..])
  }

  /** The parameter numbers an SQL lexer reads: `$` and the longest run of digits, outside quotes. */
  function Parameters(m: Mode, s: string): seq<string>
    decreases |s|
  {
    if s == "" then []
    else if m.Outside? && s[0] == '$' then
      [s[1..][..DigitRun(s[1..])]] + Parameters(m, s[1..][DigitRun(s[1..])..])
    else Parameters(Next(m, s[0]), s[1..])
  }

  function Numbers(k: nat, n: nat): seq<string>
    decreases n
  {
    if n == 0 then [] else [Dec(k + 1)] + Numbers(k + 1, n - 1)
  }

  predicate NoUnquotedDollar(m: Mode, s: string)
    decreases s
  {
    s == "" || (!(m.Outside? && s[0] == '$') && NoUnquotedDollar(Next(m, s[0]), s[1..]))
  }

  /** Some placeholder is directly followed by a digit, as in `?0`. */
  predicate DigitAfterPlaceholder(m: Mode, s: string)
    decreases s
  {
    s != "" && ( || (IsPlaceholder(m, s[0]) && |s| > 1 && IsDigit(s[1]))
                 || DigitAfterPlaceholder(Next(m, s[0]), s[1..]))
  }

  /**
   For a query written with `?` only, the server binds parameters 1, 2, ... in order exactly when
   no placeholder is directly followed by a digit.
   */
  lemma {:induction false} BindsInOrder(s: string)
    requires NoUnquotedDollar(Outside, s)
    ensures Parameters(Outside, Rewrite(s)) == Numbers(0, Count(Outside, s)) <==> !DigitAfterPlaceholder(Outside, s)
  {
    ParametersOf(Outside, 0, s);
  }

  lemma {:induction false} ParametersOf(m: Mode, k: nat, s: string)
    requires NoUnquotedDollar(m, s)
    ensures Parameters(m, Lex(m, k, s)) == Numbers(k, Count(m, s)) <==> !DigitAfterPlaceholder(m, s)
    decreases s
  {
    if s != "" {
      if IsPlaceholder(m, s[0]) {
        ParametersOf(m, k + 1, s[1..]);
        PlaceholderCase(m, k, s);
      } else {
        var rest := Lex(Next(m, s[0]), k, s[1..]);
        ParametersOf(Next(m, s[0]), k, s[1..]);
        assert ([s[0]] + rest)[1..] == rest;
      }
    }
  }

  lemma {:induction false} PlaceholderCase(m: Mode, k: nat, s: string)
    requires s != "" && IsPlaceholder(m, s[0])
    ensures Parameters(m, Lex(m, k, s)) == Numbers(k, Count(m, s)) <==>
            && Parameters(m, Lex(m, k + 1, s[1..])) == Numbers(k + 1, Count(m, s[1..]))
            && !(|s| > 1 && IsDigit(s[1]))
  {
    hide Dec, DigitRun, Parameters;
    var d, rest, n := Dec(k + 1), Lex(m, k + 1, s[1..]), Count(m, s[1..]);
    var run := DigitRun(rest);
    assert Lex(m, k, s) == "$" + d + rest;
    ParametersOfName(d, rest);
    assert Numbers(k, Count(m, s)) == [d] + Numbers(k + 1, n);
    ListSplit(d + rest[..run], Parameters(m, rest), d, Numbers(k + 1, n));
    FirstOut(m, k + 1, s[1..]);
  }

  lemma {:induction false} ParametersStep(t: string)
    ensures var run := DigitRun(t);
            Parameters(Outside, "$" + t) == [t[..run]] + Parameters(Outside, t[run..])
  {
    assert ("$" + t)[1..] == t;
  }

  /** A name swallows the digits that follow it. */
  lemma {:induction false} ParametersOfName(d: string, rest: string)
    requires forall i :: 0 <= i < |d| ==> IsDigit(d[i])
    ensures var run := DigitRun(rest);
            && Parameters(Outside, "$" + d + rest) == [d + rest[..run]] + Parameters(Outside, rest)
            && (d + rest[..run] == d <==> run == 0)
  {
    hide Parameters;
    var run := DigitRun(rest);
    ParametersStep(d + rest);
    assert "$" + d + rest == "$" + (d + rest);
    RunOf(d, rest);
    assert (d + rest)[|d| + run..] == rest[run..];
    SkipDigits(rest, run);
    assert |d + rest[..run]| == |d| + run;
    assert run == 0 ==> d + rest[..run] == d;
  }

  lemma {:induction false} ListSplit<T>(x: T, xs: seq<T>, y: T, ys: seq<T>)
    ensures [x] + xs == [y] + ys <==> x == y && xs == ys
  {
    assert ([x] + xs)[1..] == xs && ([y] + ys)[1..] == ys;
    assert ([x] + xs)[0] == x && ([y] + ys)[0] == y;
  }

  lemma {:induction false} RunOf(d: string, rest: string)
    requires forall i :: 0 <= i < |d| ==> IsDigit(d[i])
    ensures DigitRun(d + rest) == |d| + DigitRun(rest)
    ensures (d + rest)[..|d| + DigitRun(rest)] == d + rest[..DigitRun(rest)]
  {
    if d == "" {
      assert d + rest == rest;
    } else {
      assert (d + rest)[1..] == d[1..] + rest;
      RunOf(d[1..], rest);
    }
  }

  lemma {:induction false} SkipDigits(s: string, n: nat)
    requires n <= |s| && forall i :: 0 <= i < n ==> IsDigit(s[i])
    ensures Parameters(Outside, s) == Parameters(Outside, s[n..])
  {
    if n > 0 {
      SkipDigits(s[1..], n - 1);
      assert s[1..][n - 1..] == s[n..];
    }
  }

  lemma FirstOut(m: Mode, k: nat, s: string)
    requires m.Outside?
    ensures DigitRun(Lex(m, k, s)) > 0 <==> s != "" && IsDigit(s[0])
  {
  }

  /** Different placeholders get different names. */
  lemma {:induction false} NamesAreDistinct(j: nat, k: nat)
    ensures Name(j) == Name(k) ==> j == k
  {
    ParseDec(j);
    ParseDec(k);
    assert Name(j)[1..] == Dec(j) && Name(k)[1..] == Dec(k);
  }

  function Parse(d: string): int {
    if d == "" then 0 else Parse(d[..|d| - 1]) * 10 + (d[|d| - 1] as int - '0' as int)
  }

  lemma {:induction false} ParseDec(n: nat)
    ensures Parse(Dec(n)) == n
  {
    var front := if n < 10 then "" else Dec(n / 10);
    if n >= 10 {
      ParseDec(n / 10);
    }
    assert Dec(n)[..|Dec(n)| - 1] == front;
  }
}
