// Expanding a wordlist mask: each wildcard stands for the characters of its class.
module MaskExpansion {
  import opened Wrappers

  // The n characters from first on.
  function Run(first: char, n: nat): (r: string)
    requires first as int + n < 256
    ensures |r| == n && forall i :: 0 <= i < n ==> r[i] as int == first as int + i
  {
    seq(n, i requires 0 <= i < n => (first as int + i) as char)
  }

  const LETTERS := Run('a', 26)
  const DIGITS := Run('0', 10)
  const SPECIAL := "-"
  const MAX_MARKS := 3

  function Class(c: char): string {
    match c
    case 'a' => LETTERS + DIGITS + SPECIAL
    case 'd' => DIGITS
    case 'u' => LETTERS
    case 'l' => LETTERS
    case 's' => SPECIAL
    case _ => ""
  }

  function Marks(s: string): nat {
    if s == "" then 0 else Marks(s[1..]) + if s[0] == '?' then 1 else 0
  }

  // ---- What a mask means ----

  datatype Shape = Good | Improper | Dangling

  // Reading from the left: all wildcards well formed, one with an unknown class, or a
  // last '?' with nothing behind it.
  function ShapeOf(mask: string): Shape {
    if mask == "" then Good
    else if mask[0] != '?' then ShapeOf(mask[1..])
    else if |mask| == 1 then Dangling
    else if Class(mask[1]) == "" then Improper
    else ShapeOf(mask[2..])
  }

  predicate Matches(mask: string, w: string) {
    if mask == "" then w == ""
    else if mask[0] != '?' then w != "" && w[0] == mask[0] && Matches(mask[1..], w[1..])
    else |mask| >= 2 && w != "" && w[0] in Class(mask[1]) && Matches(mask[2..], w[1..])
  }

  function Size(mask: string): nat {
    if mask == "" then 1
    else if mask[0] != '?' then Size(mask[1..])
    else if |mask| == 1 then 0
    else |Class(mask[1])| * Size(mask[2..])
  }

  // The words of the mask, each once.
  ghost predicate Expands(mask: string, words: seq<string>) {
    && Distinct(words) && |words| == Size(mask)
    && forall w :: w in words <==> Matches(mask, w)
  }

  // ---- The classes, character by character ----

  predicate IsLetter(x: char) { 'a' <= x <= 'z' }

  predicate IsDigit(x: char) { '0' <= x <= '9' }

  lemma RunHas(first: char, n: nat, x: char)
    requires first as int + n < 256
    ensures x in Run(first, n) <==> first as int <= x as int < first as int + n
  {
    if first as int <= x as int < first as int + n {
      assert Run(first, n)[x as int - first as int] == x;
    }
  }

  lemma ClassHas(c: char, x: char)
    ensures x in Class(c) <==>
            || (c == 'a' && (IsLetter(x) || IsDigit(x) || x == '-'))
            || (c == 'd' && IsDigit(x))
            || ((c == 'l' || c == 'u') && IsLetter(x))
            || (c == 's' && x == '-')
    ensures |Class(c)| == if c == 'a' then 37 else if c == 'd' then 10 else if c == 'l' || c == 'u' then 26
                          else if c == 's' then 1 else 0
  {
    RunHas('a', 26, x);
    RunHas('0', 10, x);
    hide Run;
  }

  lemma OneMark(c: char, w: string)
    ensures Matches(['?', c], w) <==> |w| == 1 && w[0] in Class(c)
    ensures Size(['?', c]) == |Class(c)|
  {
    var mask := ['?', c];
    assert mask[2..] == "";
    assert Matches("", if w == "" then w else w[1..]) <==> |w| <= 1;
    hide Class;
  }

  // What a single wildcard stands for.
  lemma WildcardsAre(w: string)
    ensures Matches("?d", w) <==> |w| == 1 && '0' <= w[0] <= '9'
    ensures Matches("?l", w) <==> |w| == 1 && 'a' <= w[0] <= 'z'
    ensures Matches("?u", w) <==> |w| == 1 && 'a' <= w[0] <= 'z'
    ensures Matches("?s", w) <==> w == "-"
    ensures Matches("?a", w) <==> |w| == 1 && ('a' <= w[0] <= 'z' || '0' <= w[0] <= '9' || w[0] == '-')
    ensures Size("?d") == 10 && Size("?l") == 26 && Size("?u") == 26 && Size("?s") == 1 && Size("?a") == 37
  {
    MarkIs('d', w);
    MarkIs('l', w);
    MarkIs('u', w);
    MarkIs('s', w);
    MarkIs('a', w);
    hide Matches, Size;
    assert "?d" == ['?', 'd'] && "?l" == ['?', 'l'] && "?u" == ['?', 'u'] && "?s" == ['?', 's'] && "?a" == ['?', 'a'];
  }

  lemma MarkIs(c: char, w: string)
    ensures Matches(['?', c], w) <==>
            && |w| == 1
            && var x := w[0];
               || (c == 'a' && (IsLetter(x) || IsDigit(x) || x == '-'))
               || (c == 'd' && IsDigit(x))
               || ((c == 'l' || c == 'u') && IsLetter(x))
               || (c == 's' && x == '-')
    ensures Size(['?', c]) == if c == 'a' then 37 else if c == 'd' then 10 else if c == 'l' || c == 'u' then 26
                              else if c == 's' then 1 else 0
  {
    OneMark(c, w);
    ClassHas(c, if w == "" then 'a' else w[0]);
    hide Class, Matches, Size;
  }

  // Which characters make a wildcard improper: all but these five.
  lemma ProperIff(c: char, rest: string)
    ensures ShapeOf(['?', c] + rest) == Improper <==>
            c !in {'a', 'd', 'l', 'u', 's'} || ShapeOf(rest) == Improper
    ensures ShapeOf("?") == Dangling && ShapeOf("") == Good
  {
    var mask := ['?', c] + rest;
    assert mask[2..] == rest;
    ClassHas(c, 'a');
    hide Class;
  }

  // ---- Characters before the first wildcard ----

  predicate Plain(p: string) {
    '?' !in p
  }

  lemma {:induction false} AfterPlain(p: string, rest: string)
    requires Plain(p)
    ensures ShapeOf(p + rest) == ShapeOf(rest) && Size(p + rest) == Size(rest) && Marks(p + rest) == Marks(rest)
  {
    if p == "" {
      assert p + rest == rest;
    } else {
      assert (p + rest)[1..] == p[1..] + rest;
      AfterPlain(p[1..], rest);
    }
  }

  lemma {:induction false} MatchesAfterPlain(p: string, rest: string, w: string)
    requires Plain(p)
    ensures Matches(p + rest, w) <==> |w| >= |p| && w[..|p|] == p && Matches(rest, w[|p|..])
  {
    if p == "" {
      assert p + rest == rest && w[0..] == w;
    } else {
      assert (p + rest)[1..] == p[1..] + rest;
      MatchesAfterPlain(p[1..], rest, if w == "" then w else w[1..]);
      if |w| >= |p| {
        assert w[1..][|p| - 1..] == w[|p|..] && w[..|p|][1..] == w[1..][..|p| - 1];
        assert w[..|p|] == [w[0]] + w[1..][..|p| - 1] && p == [p[0]] + p[1..];
      }
    }
  }

  lemma {:induction false} PlainExpands(word: string)
    requires Plain(word)
    ensures Expands(word, [word]) && ShapeOf(word) == Good && Marks(word) == 0
  {
    AfterPlain(word, "");
    assert word + "" == word;
    forall w ensures Matches(word, w) <==> w == word {
      MatchesAfterPlain(word, "", w);
      assert w[..|w|] == w;
    }
  }

  lemma ClassIsPlain(c: char, i: nat)
    requires i < |Class(c)|
    ensures Class(c)[i] != '?' && forall j :: 0 <= j < i ==> Class(c)[j] != Class(c)[i]
  {}

  // strings.SplitN at the first '?'.
  method FirstMark(s: string) returns (i: nat)
    ensures i <= |s| && Plain(s[..i]) && (i < |s| ==> s[i] == '?')
  {
    i := 0;
    while i < |s| && s[i] != '?'
      invariant i <= |s| && Plain(s[..i])
    {
      i := i + 1;
    }
  }

  // ---- One wildcard ----

  // p + "?" + [c] + rest with the wildcard replaced by its k-th character.
  function Filled(p: string, c: char, rest: string, k: nat): string
    requires k < |Class(c)|
  {
    p + [Class(c)[k]] + rest
  }

  lemma FilledIs(p: string, c: char, rest: string, k: nat)
    requires Plain(p) && k < |Class(c)|
    ensures var mask := p + "?" + [c] + rest;
            && ShapeOf(Filled(p, c, rest, k)) == ShapeOf(mask)
            && Marks(Filled(p, c, rest, k)) == Marks(mask) - (if c == '?' then 2 else 1)
            && Size(mask) == |Class(c)| * Size(rest) && Size(Filled(p, c, rest, k)) == Size(rest)
  {
    ClassIsPlain(c, k);
    var tail := "?" + [c] + rest;
    assert p + "?" + [c] + rest == p + tail;
    AfterPlain(p, tail);
    AfterPlain(p + [Class(c)[k]], rest);
    assert tail[2..] == rest && tail[1..] == [c] + rest && ([c] + rest)[1..] == rest;
  }

  lemma FilledMatch(p: string, c: char, rest: string, k: nat, w: string)
    requires Plain(p) && k < |Class(c)|
    ensures Matches(Filled(p, c, rest, k), w) <==>
              |w| > |p| && w[..|p|] == p && w[|p|] == Class(c)[k] && Matches(rest, w[|p| + 1..])
  {
    hide Matches, Class;
    var q := p + [Class(c)[k]];
    ClassIsPlain(c, k);
    MatchesAfterPlain(q, rest, w);
    if |w| > |p| { assert w[..|q|] == w[..|p|] + [w[|p|]]; }
  }

  lemma MaskMatch(p: string, c: char, rest: string, w: string)
    requires Plain(p)
    ensures Matches(p + "?" + [c] + rest, w) <==>
              |w| > |p| && w[..|p|] == p && w[|p|] in Class(c) && Matches(rest, w[|p| + 1..])
  {
    var tail := "?" + [c] + rest;
    assert p + "?" + [c] + rest == p + tail && tail[2..] == rest;
    MatchesAfterPlain(p, tail, w);
    if |w| > |p| { assert w[|p|..][1..] == w[|p| + 1..]; }
    hide Class;
  }

  lemma FilledMatches(p: string, c: char, rest: string, w: string)
    requires Plain(p)
    ensures Matches(p + "?" + [c] + rest, w) <==> exists k :: 0 <= k < |Class(c)| && Matches(Filled(p, c, rest, k), w)
    ensures forall k :: 0 <= k < |Class(c)| && Matches(Filled(p, c, rest, k), w) ==> |w| > |p| && w[|p|] == Class(c)[k]
  {
    hide Matches, Class, Filled;
    MaskMatch(p, c, rest, w);
    forall k | 0 <= k < |Class(c)|
      ensures Matches(Filled(p, c, rest, k), w) <==>
                |w| > |p| && w[..|p|] == p && w[|p|] == Class(c)[k] && Matches(rest, w[|p| + 1..])
    {
      FilledMatch(p, c, rest, k, w);
    }
    if Matches(p + "?" + [c] + rest, w) {
      var k :| 0 <= k < |Class(c)| && Class(c)[k] == w[|p|];
      assert Matches(Filled(p, c, rest, k), w);
    }
  }

  // The words of the first k replacements of a wildcard.
  ghost predicate Partly(p: string, c: char, rest: string, k: nat, words: seq<string>)
    requires k <= |Class(c)|
  {
    && Distinct(words) && |words| == k * Size(rest)
    && forall w :: w in words <==> exists j :: 0 <= j < k && Matches(Filled(p, c, rest, j), w)
  }

  lemma OneMoreCharacter(p: string, c: char, rest: string, k: nat, words: seq<string>, more: seq<string>)
    requires Plain(p) && k < |Class(c)| && Partly(p, c, rest, k, words) && Expands(Filled(p, c, rest, k), more)
    ensures Partly(p, c, rest, k + 1, words + more)
  {
    FilledIs(p, c, rest, k);
    ClassIsPlain(c, k);
    hide Matches, ShapeOf, Marks, Class;
    assert (k + 1) * Size(rest) == k * Size(rest) + Size(rest);
    forall i, j | 0 <= i < |words| && 0 <= j < |more| ensures words[i] != more[j] {
      FilledMatches(p, c, rest, words[i]);
      FilledMatches(p, c, rest, more[j]);
      assert words[i] in words && more[j] in more;
    }
    forall w
      ensures w in words + more <==> exists j :: 0 <= j < k + 1 && Matches(Filled(p, c, rest, j), w)
    {
      if w in more { assert Matches(Filled(p, c, rest, k), w); }
    }
  }

  // ---- The expansion ----

  method ExpandMask(word: string) returns (words: seq<string>, failed: bool)
    ensures failed <==> Marks(word) > 3 || ShapeOf(word) == Improper
    ensures !failed && ShapeOf(word) == Good ==> Expands(word, words)
    ensures !failed && ShapeOf(word) == Dangling ==> words == []
    decreases Marks(word)
  {
    words, failed := [], false;
    if Marks(word) > MAX_MARKS { return [], true; }
    var i := FirstMark(word);
    if i == |word| {
      assert word[..i] == word;
      PlainExpands(word);
      return [word], false;
    }
    var p, tail := word[..i], word[i + 1..];
    if tail == "" {
      AfterPlain(p, "?");
      assert word == p + "?";
      return [], false;
    }
    var c, rest := tail[0], tail[1..];
    assert word == p + "?" + [c] + rest;
    var chars := Class(c);
    if chars == "" {
      BadClass(p, c, rest);
      return [], true;
    }
    for k := 0 to |chars|
      invariant ShapeOf(word) != Improper || k == 0
      invariant ShapeOf(word) == Good ==> Partly(p, c, rest, k, words)
      invariant ShapeOf(word) == Dangling ==> words == []
    {
      hide *;
      FilledIs(p, c, rest, k);
      var next, bad := ExpandMask(Filled(p, c, rest, k));
      if bad { return words, true; }
      if ShapeOf(word) == Good { OneMoreCharacter(p, c, rest, k, words, next); }
      words := words + next;
    }
    if ShapeOf(word) == Good { AllCharacters(p, c, rest, words); }
  }

  lemma BadClass(p: string, c: char, rest: string)
    requires Plain(p) && Class(c) == ""
    ensures ShapeOf(p + "?" + [c] + rest) == Improper
  {
    var tail := "?" + [c] + rest;
    assert p + "?" + [c] + rest == p + tail;
    AfterPlain(p, tail);
  }

  lemma AllCharacters(p: string, c: char, rest: string, words: seq<string>)
    requires Plain(p) && Class(c) != "" && Partly(p, c, rest, |Class(c)|, words)
    ensures Expands(p + "?" + [c] + rest, words)
  {
    FilledIs(p, c, rest, 0);
    forall w ensures w in words <==> Matches(p + "?" + [c] + rest, w) {
      FilledMatches(p, c, rest, w);
    }
  }

  // Masks that cannot be expanded are left out, the rest follow each other.
  method ExpandMaskWordlist(wordlist: seq<string>) returns (words: seq<string>)
    ensures forall w :: w in words <==>
              exists m :: m in wordlist && Marks(m) <= 3 && ShapeOf(m) == Good && Matches(m, w)
  {
    words := [];
    for i := 0 to |wordlist|
      invariant forall w :: w in words <==>
                  exists m :: m in wordlist[..i] && Marks(m) <= 3 && ShapeOf(m) == Good && Matches(m, w)
    {
      var mask := wordlist[i];
      var more, failed := ExpandMask(mask);
      hide Marks, ShapeOf, Matches;
      assert wordlist[..i + 1] == wordlist[..i] + [mask];
      if !failed { words := words + more; }
    }
    assert wordlist[..|wordlist|] == wordlist;
  }
}
