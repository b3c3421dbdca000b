/** Ingestion of promo codes from mail into the ledger: extracting codes,
    the input deadline and the usage count from a message, classifying a
    code by its prefix, writing its rows, removing duplicates, and the
    per-thread driver that aborts on a message without codes. */
module Ingest {
  import opened Text
  import opened Ledger

  // ---------------------------------------------------------------------
  // getCodeAmount: the label of a code, by the first prefix that matches.

  const Label300MB := "300MB/3Days"
  const LabelUnlimited := "無制限/24H"
  const Label1GB := "1GB/7Days"
  const Label3GB := "3GB/30Days"
  const Label20GB := "20GB/30Days"
  const LabelNeedsReview := "!!!!要確認!!!!"

  datatype Rule = Rule(prefix: string, amount: string)

  /** The prefix tests in the order the classifier makes them. */
  const Rules: seq<Rule> := [
    Rule("300MB", Label300MB),
    Rule("U24", LabelUnlimited),
    Rule("1GB", Label1GB),
    Rule("3GB", Label3GB),
    Rule("20GB", Label20GB)
  ]

  const AmountLabels: set<string> :=
    {Label300MB, LabelUnlimited, Label1GB, Label3GB, Label20GB, LabelNeedsReview}

  lemma PrefixChars(code: string, p: string)
    requires HasPrefix(code, p)
    ensures forall i :: 0 <= i < |p| ==> code[i] == p[i]
  {
    assert forall i :: 0 <= i < |p| ==> code[..|p|][i] == code[i];
  }

  /** At most one rule prefix fits any code, so the order of the tests never
      decides between two of them. */
  lemma PrefixesExclusive(code: string, i: nat, j: nat)
    requires i < j < |Rules|
    requires HasPrefix(code, Rules[i].prefix)
    ensures !HasPrefix(code, Rules[j].prefix)
  {
    var p, q := Rules[i].prefix, Rules[j].prefix;
    var d := if i == 0 && j == 3 then 1 else 0;
    PrefixChars(code, p);
    assert code[d] == p[d] && p[d] != q[d];
    if |q| <= |code| {
      assert code[..|q|][d] != q[d];
    }
  }

  function CodeAmount(code: string): string
  {
    if HasPrefix(code, "300MB") then Label300MB
    else if HasPrefix(code, "U24") then LabelUnlimited
    else if HasPrefix(code, "1GB") then Label1GB
    else if HasPrefix(code, "3GB") then Label3GB
    else if HasPrefix(code, "20GB") then Label20GB
    else LabelNeedsReview
  }

  /** A code gets a rule's label exactly when it has that rule's prefix, and
      the review marker exactly when it has none of them. */
  lemma CodeAmountSpec(code: string)
    ensures CodeAmount(code) in AmountLabels
    ensures forall k :: 0 <= k < |Rules| ==> (CodeAmount(code) == Rules[k].amount <==> HasPrefix(code, Rules[k].prefix))
    ensures CodeAmount(code) == LabelNeedsReview <==> forall k :: 0 <= k < |Rules| ==> !HasPrefix(code, Rules[k].prefix)
  {
    if HasPrefix(code, "300MB") {
      Exclusive(code, 0);
    } else if HasPrefix(code, "U24") {
      Exclusive(code, 1);
    } else if HasPrefix(code, "1GB") {
      Exclusive(code, 2);
    } else if HasPrefix(code, "3GB") {
      Exclusive(code, 3);
    } else if HasPrefix(code, "20GB") {
      assert HasPrefix(code, Rules[4].prefix);
    }
  }

  lemma Exclusive(code: string, i: nat)
    requires i < |Rules| && HasPrefix(code, Rules[i].prefix)
    ensures forall j :: i < j < |Rules| ==> !HasPrefix(code, Rules[j].prefix)
  {
    forall j | i < j < |Rules|
      ensures !HasPrefix(code, Rules[j].prefix)
    {
      PrefixesExclusive(code, i, j);
    }
  }

  /** No code is ever labelled with a 7GB amount. */
  lemma NoSevenGigLabel(code: string)
    ensures !HasPrefix(CodeAmount(code), "7GB")
  {
    var a := CodeAmount(code);
    CodeAmountSpec(code);
    assert a[0] != '7';
    if |a| >= 3 {
      assert a[..3][0] == a[0];
    }
  }

  // ---------------------------------------------------------------------
  // The code pattern of extractCode:
  //   ([1-9][A-Z0-9]{13} | U24H[0-9]{1,2}T[A-Z0-9]{9}) followed by `.*</strong>`.

  const CloseTag := "</strong>"

  /** The characters `.` does not match. */
  predicate IsLineTerminator(c: char)
  {
    c == '\n' || c == '\r' || c == '\U{2028}' || c == '\U{2029}'
  }

  predicate AllUpperOrDigit(s: string, from: nat, to: nat)
    requires from <= to <= |s|
  {
    forall i :: from <= i < to ==> IsUpperOrDigit(s[i])
  }

  /** A whole string that one of the two alternatives matches. */
  predicate IsCodeToken(t: string)
  {
    || (|t| == 14 && '1' <= t[0] <= '9' && AllUpperOrDigit(t, 1, 14))
    || (|t| == 16 && t[..4] == "U24H" && IsDigit(t[4]) && IsDigit(t[5]) && t[6] == 'T' && AllUpperOrDigit(t, 7, 16))
    || (|t| == 15 && t[..4] == "U24H" && IsDigit(t[4]) && t[5] == 'T' && AllUpperOrDigit(t, 6, 15))
  }

  /** The length of the token the alternation matches at `p`, 0 if none.
      The alternatives start with different characters, and the two-digit
      form of the second is tried before the one-digit form. */
  function TokenLength(s: string, p: nat): nat
  {
    if p + 14 <= |s| && '1' <= s[p] <= '9' && AllUpperOrDigit(s, p + 1, p + 14) then 14
    else if p + 16 <= |s| && s[p..p + 4] == "U24H" && IsDigit(s[p + 4]) && IsDigit(s[p + 5])
            && s[p + 6] == 'T' && AllUpperOrDigit(s, p + 7, p + 16) then 16
    else if p + 15 <= |s| && s[p..p + 4] == "U24H" && IsDigit(s[p + 4]) && s[p + 5] == 'T'
            && AllUpperOrDigit(s, p + 6, p + 15) then 15
    else 0
  }

  lemma TokenWindow(s: string, p: nat, n: nat)
    requires p + n <= |s|
    ensures forall i :: p <= i < p + n ==> s[p..p + n][i - p] == s[i]
  {
  }

  /** The token found at `p` is a code token. */
  lemma TokenLengthSound(s: string, p: nat)
    requires TokenLength(s, p) > 0
    ensures p + TokenLength(s, p) <= |s| && IsCodeToken(s[p..p + TokenLength(s, p)])
  {
    var n := TokenLength(s, p);
    var t := s[p..p + n];
    TokenWindow(s, p, n);
    if n == 16 || n == 15 {
      assert t[..4] == s[p..p + 4];
    }
  }

  /** Every code token that starts at `p` is the one found there. */
  lemma TokenLengthComplete(s: string, p: nat, n: nat)
    requires p + n <= |s| && IsCodeToken(s[p..p + n])
    ensures TokenLength(s, p) == n
  {
    var t := s[p..p + n];
    TokenWindow(s, p, n);
    if n == 16 || n == 15 {
      assert t[..4] == s[p..p + 4];
      assert s[p] == 'U';
    }
  }

  /** The lookahead `(?=.*</strong>)` at position `e`. */
  function StrongAhead(s: string, e: nat): bool
    decreases |s| - e
  {
    if e + |CloseTag| <= |s| && s[e..e + |CloseTag|] == CloseTag then true
    else if e < |s| && !IsLineTerminator(s[e]) then StrongAhead(s, e + 1)
    else false
  }

  ghost predicate CloseTagOnLine(s: string, e: nat, k: nat)
  {
    && e <= k && k + |CloseTag| <= |s| && s[k..k + |CloseTag|] == CloseTag
    && forall j :: e <= j < k ==> !IsLineTerminator(s[j])
  }

  /** The lookahead holds exactly when `</strong>` starts later on the same line. */
  lemma {:induction false} StrongAheadMeaning(s: string, e: nat)
    ensures StrongAhead(s, e) <==> exists k: nat :: CloseTagOnLine(s, e, k)
    decreases |s| - e
  {
    if e + |CloseTag| <= |s| && s[e..e + |CloseTag|] == CloseTag {
      assert CloseTagOnLine(s, e, e);
    } else if e < |s| && !IsLineTerminator(s[e]) {
      var e1 := e + 1;
      StrongAheadMeaning(s, e1);
      forall k: nat | CloseTagOnLine(s, e, k)
        ensures CloseTagOnLine(s, e1, k)
      {
      }
      forall k: nat | CloseTagOnLine(s, e1, k)
        ensures CloseTagOnLine(s, e, k)
      {
      }
    } else {
      forall k: nat
        ensures !CloseTagOnLine(s, e, k)
      {
        if e < k && k + |CloseTag| <= |s| {
          assert IsLineTerminator(s[e]);
        }
      }
    }
  }

  /** What the regular expression matches at `p`, `n` characters long. */
  ghost predicate CodeMatchAt(s: string, p: nat, n: nat)
  {
    p + n <= |s| && IsCodeToken(s[p..p + n]) && StrongAhead(s, p + n)
  }

  /** The global (`g`) scan: left to right, resuming after each match.
      Each entry is a start position and a length. */
  function CodeMatches(s: string, p: nat): seq<(nat, nat)>
    decreases |s| - p
  {
    if p >= |s| then []
    else
      var n := TokenLength(s, p);
      if n > 0 && StrongAhead(s, p + n) then [(p, n)] + CodeMatches(s, p + n)
      else CodeMatches(s, p + 1)
  }

  ghost predicate Covered(m: seq<(nat, nat)>, q: nat)
  {
    exists i :: 0 <= i < |m| && m[i].0 <= q < m[i].0 + m[i].1
  }

  /** There is no match at a place the scan passes over. */
  lemma NoMatchAt(s: string, p: nat)
    requires !(TokenLength(s, p) > 0 && StrongAhead(s, p + TokenLength(s, p)))
    ensures forall n: nat :: !CodeMatchAt(s, p, n)
  {
    forall n: nat
      ensures !CodeMatchAt(s, p, n)
    {
      if p + n <= |s| && IsCodeToken(s[p..p + n]) {
        TokenLengthComplete(s, p, n);
      }
    }
  }

  ghost predicate AllMatchFrom(s: string, m: seq<(nat, nat)>, p: nat)
  {
    forall i :: 0 <= i < |m| ==> p <= m[i].0 && CodeMatchAt(s, m[i].0, m[i].1)
  }

  ghost predicate StartsFrom(m: seq<(nat, nat)>, p: nat)
  {
    forall i :: 0 <= i < |m| ==> p <= m[i].0
  }

  ghost predicate Disjoint(m: seq<(nat, nat)>)
  {
    forall i :: 0 <= i < |m| - 1 ==> m[i].0 + m[i].1 <= m[i + 1].0
  }

  ghost predicate CoversFrom(s: string, m: seq<(nat, nat)>, p: nat)
  {
    forall q: nat, n: nat :: p <= q && CodeMatchAt(s, q, n) ==> Covered(m, q)
  }

  lemma AllMatchFromCons(s: string, p: nat, n: nat, rest: seq<(nat, nat)>)
    requires CodeMatchAt(s, p, n) && AllMatchFrom(s, rest, p + n)
    ensures AllMatchFrom(s, [(p, n)] + rest, p)
  {
    var m := [(p, n)] + rest;
    forall i | 1 <= i < |m|
      ensures p <= m[i].0 && CodeMatchAt(s, m[i].0, m[i].1)
    {
      assert m[i] == rest[i - 1];
    }
  }

  /** The scan returns matches only, each at or after where it started. */
  lemma {:induction false} CodeMatchesSound(s: string, p: nat)
    ensures AllMatchFrom(s, CodeMatches(s, p), p)
    decreases |s| - p
  {
    if p < |s| {
      var n := TokenLength(s, p);
      if n > 0 && StrongAhead(s, p + n) {
        TokenLengthSound(s, p);
        CodeMatchesSound(s, p + n);
        AllMatchFromCons(s, p, n, CodeMatches(s, p + n));
      } else {
        CodeMatchesSound(s, p + 1);
      }
    }
  }

  lemma {:induction false} CodeMatchesStart(s: string, p: nat)
    ensures StartsFrom(CodeMatches(s, p), p)
    decreases |s| - p
  {
    if p < |s| {
      var n := TokenLength(s, p);
      if n > 0 && StrongAhead(s, p + n) {
        CodeMatchesStart(s, p + n);
        var m, rest := CodeMatches(s, p), CodeMatches(s, p + n);
        assert m == [(p, n)] + rest;
        assert forall i | 1 <= i < |m| :: m[i] == rest[i - 1];
      } else {
        CodeMatchesStart(s, p + 1);
      }
    }
  }

  /** The matches come in increasing order and do not overlap. */
  lemma {:induction false} CodeMatchesOrdered(s: string, p: nat)
    ensures Disjoint(CodeMatches(s, p))
    decreases |s| - p
  {
    if p < |s| {
      var n := TokenLength(s, p);
      if n > 0 && StrongAhead(s, p + n) {
        CodeMatchesOrdered(s, p + n);
        CodeMatchesStart(s, p + n);
        var m, rest := CodeMatches(s, p), CodeMatches(s, p + n);
        assert m == [(p, n)] + rest;
        forall i | 0 <= i < |m| - 1
          ensures m[i].0 + m[i].1 <= m[i + 1].0
        {
          assert m[i + 1] == rest[i];
          if i > 0 {
            assert m[i] == rest[i - 1];
          }
        }
      } else {
        CodeMatchesOrdered(s, p + 1);
      }
    }
  }

  /** A match at `p` covers what lies before the rest's start. */
  lemma CoversCons(s: string, p: nat, n: nat, rest: seq<(nat, nat)>)
    requires CoversFrom(s, rest, p + n)
    ensures CoversFrom(s, [(p, n)] + rest, p)
  {
    var m := [(p, n)] + rest;
    forall q: nat, n': nat | p <= q && CodeMatchAt(s, q, n')
      ensures Covered(m, q)
    {
      if q < p + n {
        assert m[0].0 <= q < m[0].0 + m[0].1;
      } else {
        var i :| 0 <= i < |rest| && rest[i].0 <= q < rest[i].0 + rest[i].1;
        assert m[i + 1] == rest[i];
      }
    }
  }

  /** A place where nothing matches needs no cover. */
  lemma CoversSkip(s: string, p: nat, m: seq<(nat, nat)>)
    requires CoversFrom(s, m, p + 1)
    requires forall n: nat :: !CodeMatchAt(s, p, n)
    ensures CoversFrom(s, m, p)
  {
    forall q: nat, n: nat | p <= q && CodeMatchAt(s, q, n)
      ensures Covered(m, q)
    {
      assert q != p;
    }
  }

  /** Every place the pattern matches lies inside a returned match: the scan
      misses nothing and takes the leftmost match each time. */
  lemma {:induction false} CodeMatchesComplete(s: string, p: nat)
    ensures CoversFrom(s, CodeMatches(s, p), p)
    decreases |s| - p
  {
    if p < |s| {
      var n := TokenLength(s, p);
      if n > 0 && StrongAhead(s, p + n) {
        CodeMatchesComplete(s, p + n);
        CoversCons(s, p, n, CodeMatches(s, p + n));
      } else {
        CodeMatchesComplete(s, p + 1);
        NoMatchAt(s, p);
        CoversSkip(s, p, CodeMatches(s, p + 1));
      }
    }
  }

  function Tokens(s: string, m: seq<(nat, nat)>): (t: seq<string>)
    requires forall i :: 0 <= i < |m| ==> m[i].0 + m[i].1 <= |s|
    ensures |t| == |m|
    ensures forall i :: 0 <= i < |m| ==> t[i] == s[m[i].0..m[i].0 + m[i].1]
  {
    if m == [] then [] else [s[m[0].0..m[0].0 + m[0].1]] + Tokens(s, m[1..])
  }

  /** The codes of an HTML mail body, in the order they occur. */
  function ExtractCodes(body: string): (codes: seq<string>)
    ensures |codes| == |CodeMatches(body, 0)|
  {
    var m := CodeMatches(body, 0);
    CodeMatchesSound(body, 0);
    assert forall i :: 0 <= i < |m| ==> CodeMatchAt(body, m[i].0, m[i].1);
    Tokens(body, m)
  }

  /** Each extracted code is the text of its match, and a whole code token. */
  lemma ExtractCodesTokens(body: string)
    ensures var m, codes := CodeMatches(body, 0), ExtractCodes(body);
            forall i :: 0 <= i < |codes| ==>
              m[i].0 + m[i].1 <= |body| && codes[i] == body[m[i].0..m[i].0 + m[i].1] && IsCodeToken(codes[i])
  {
    var m := CodeMatches(body, 0);
    CodeMatchesSound(body, 0);
    assert forall i :: 0 <= i < |m| ==> CodeMatchAt(body, m[i].0, m[i].1);
  }

  // ---------------------------------------------------------------------
  // The deadline and usage-count patterns, with the lookbehind `(?<=label\n*)`.

  const DeadlineLabel := "コードの入力期限"
  const CountLabel := "コードの利用回数"
  const TimesUnit := '回'

  /** The lookbehind: `label` followed by line feeds only, ending at `p`. */
  function LabelBefore(s: string, p: nat, tag: string): bool
    requires p <= |s|
  {
    if |tag| <= p && s[p - |tag|..p] == tag then true
    else if 0 < p && s[p - 1] == '\n' then LabelBefore(s, p - 1, tag)
    else false
  }

  /** `tag` ends at `j`. */
  predicate LabelEndsAt(s: string, j: int, tag: string)
  {
    |tag| <= j <= |s| && s[j - |tag|..j] == tag
  }

  /** Only line feeds lie between `j` and `p`. */
  predicate OnlyLineFeeds(s: string, j: int, p: int)
  {
    0 <= j <= p <= |s| && forall k :: j <= k < p ==> s[k] == '\n'
  }

  /** `(?<=tag\n*)` holds at `p` iff `tag` ends at some `j <= p` and only
      line feeds follow it up to `p`. */
  lemma {:induction false} LabelBeforeMeaning(s: string, p: nat, tag: string)
    requires p <= |s|
    ensures LabelBefore(s, p, tag) <==> exists j :: LabelEndsAt(s, j, tag) && OnlyLineFeeds(s, j, p)
    decreases p
  {
    if |tag| <= p && s[p - |tag|..p] == tag {
      assert LabelEndsAt(s, p, tag) && OnlyLineFeeds(s, p, p);
    } else if 0 < p && s[p - 1] == '\n' {
      LabelBeforeMeaning(s, p - 1, tag);
      if LabelBefore(s, p - 1, tag) {
        var j :| LabelEndsAt(s, j, tag) && OnlyLineFeeds(s, j, p - 1);
        assert OnlyLineFeeds(s, j, p);
      } else {
        forall j | LabelEndsAt(s, j, tag) && OnlyLineFeeds(s, j, p) && j < p
          ensures OnlyLineFeeds(s, j, p - 1)
        {
        }
      }
    }
  }

  /** The lookbehind fails where the character before is neither a line
      feed nor the label's last character. */
  lemma NoLabelBefore(s: string, p: nat, tag: string)
    requires 0 < p <= |s| && 0 < |tag|
    requires s[p - 1] != '\n' && s[p - 1] != tag[|tag| - 1]
    ensures !LabelBefore(s, p, tag)
  {
    if |tag| <= p {
      assert s[p - |tag|..p][|tag| - 1] == s[p - 1];
    }
  }

  /** `20[0-9]{2}/[0-9]{2}/[0-9]{2}` at `p`. */
  predicate DateAt(s: string, p: nat)
  {
    && p + 10 <= |s|
    && s[p] == '2' && s[p + 1] == '0' && IsDigit(s[p + 2]) && IsDigit(s[p + 3])
    && s[p + 4] == '/' && IsDigit(s[p + 5]) && IsDigit(s[p + 6])
    && s[p + 7] == '/' && IsDigit(s[p + 8]) && IsDigit(s[p + 9])
  }

  /** The deadline pattern matches at `q`: a date with its label before it. */
  predicate DeadlineAt(s: string, q: nat)
  {
    DateAt(s, q) && LabelBefore(s, q, DeadlineLabel)
  }

  /** Every deadline date the global scan finds, in order. */
  function DeadlineMatches(s: string, p: nat): (r: seq<string>)
    ensures forall i :: 0 <= i < |r| ==> DateAt(r[i], 0) && |r[i]| == 10
    decreases |s| - p
  {
    if p >= |s| then []
    else if DeadlineAt(s, p) then
      [s[p..p + 10]] + DeadlineMatches(s, p + 10)
    else DeadlineMatches(s, p + 1)
  }

  /** No labelled date starts inside another date: the character before it
      would be a digit or `/`. */
  lemma NoDeadlineInside(s: string, p: nat)
    requires DateAt(s, p)
    ensures forall q :: p < q < p + 10 ==> !DeadlineAt(s, q)
  {
    assert DeadlineLabel[|DeadlineLabel| - 1] == '限';
    forall q | p < q < p + 10
      ensures !LabelBefore(s, q, DeadlineLabel)
    {
      assert q - 1 == p || q - 1 == p + 1 || q - 1 == p + 2 || q - 1 == p + 3 || q - 1 == p + 4
          || q - 1 == p + 5 || q - 1 == p + 6 || q - 1 == p + 7 || q - 1 == p + 8;
      NoLabelBefore(s, q, DeadlineLabel);
    }
  }

  /** Later entries of `pos` lie at least `w` past earlier ones. */
  ghost predicate Spaced(pos: seq<nat>, w: nat)
  {
    forall i, j :: 0 <= i < j < |pos| ==> pos[i] + w <= pos[j]
  }

  lemma SpacedCons(p: nat, w: nat, rest: seq<nat>)
    requires Spaced(rest, w)
    requires forall i :: 0 <= i < |rest| ==> p + w <= rest[i]
    ensures Spaced([p] + rest, w)
  {
    var pos := [p] + rest;
    forall i, j | 0 <= i < j < |pos|
      ensures pos[i] + w <= pos[j]
    {
      assert pos[j] == rest[j - 1];
      if i > 0 {
        assert pos[i] == rest[i - 1];
      }
    }
  }

  /** A labelled date starts at `q`, and `t` is its text. */
  predicate DeadlineHit(s: string, q: nat, t: string)
  {
    DeadlineAt(s, q) && t == s[q..q + 10]
  }

  /** Each entry of `pos` is where a labelled date starts, and the date the
      scan from `p` reports in that place is the one starting there. */
  ghost predicate DeadlinesAt(s: string, p: nat, pos: seq<nat>)
  {
    && |pos| == |DeadlineMatches(s, p)|
    && (forall i {:trigger pos[i]} :: 0 <= i < |pos| ==> p <= pos[i] && DeadlineHit(s, pos[i], DeadlineMatches(s, p)[i]))
  }

  /** `pos` holds every labelled date at or after `p`. */
  ghost predicate AllDeadlinesIn(s: string, p: nat, pos: seq<nat>)
  {
    forall q :: p <= q && DeadlineAt(s, q) ==> q in pos
  }

  /** `pos` are the start positions of the dates the scan from `p` finds:
      exactly the labelled dates at or after `p`, left to right and without
      overlap. */
  ghost predicate DeadlineStarts(s: string, p: nat, pos: seq<nat>)
  {
    DeadlinesAt(s, p, pos) && Spaced(pos, 10) && AllDeadlinesIn(s, p, pos)
  }

  lemma DeadlinesAtCons(s: string, p: nat, rest: seq<nat>)
    requires DeadlineAt(s, p) && DeadlinesAt(s, p + 10, rest)
    ensures DeadlinesAt(s, p, [p] + rest)
  {
    var later := DeadlineMatches(s, p + 10);
    assert DeadlineMatches(s, p) == [s[p..p + 10]] + later;
    var pos := [p] + rest;
    forall i | 0 <= i < |pos|
      ensures p <= pos[i] && DeadlineHit(s, pos[i], DeadlineMatches(s, p)[i])
    {
      if i > 0 {
        assert pos[i] == rest[i - 1] && DeadlineMatches(s, p)[i] == later[i - 1];
        assert DeadlineHit(s, rest[i - 1], later[i - 1]);
      }
    }
  }

  lemma AllDeadlinesInCons(s: string, p: nat, rest: seq<nat>)
    requires DateAt(s, p) && AllDeadlinesIn(s, p + 10, rest)
    ensures AllDeadlinesIn(s, p, [p] + rest)
  {
    NoDeadlineInside(s, p);
    forall q | p + 10 <= q && DeadlineAt(s, q)
      ensures q in [p] + rest
    {
      assert q in rest;
    }
  }

  lemma DeadlineStartsCons(s: string, p: nat, rest: seq<nat>)
    requires p < |s| && DeadlineAt(s, p) && DeadlineStarts(s, p + 10, rest)
    ensures DeadlineStarts(s, p, [p] + rest)
  {
    DeadlinesAtCons(s, p, rest);
    SpacedCons(p, 10, rest);
    AllDeadlinesInCons(s, p, rest);
  }

  lemma DeadlineStartsSkip(s: string, p: nat, rest: seq<nat>)
    requires p < |s| && !DeadlineAt(s, p) && DeadlineStarts(s, p + 1, rest)
    ensures DeadlineStarts(s, p, rest)
  {
    assert DeadlineMatches(s, p) == DeadlineMatches(s, p + 1);
  }

  /** The scan from `p` finds exactly the labelled dates at or after `p`. */
  lemma {:induction false} DeadlineMatchesExact(s: string, p: nat) returns (pos: seq<nat>)
    ensures DeadlineStarts(s, p, pos)
    decreases |s| - p
  {
    if p >= |s| {
      pos := [];
    } else if DeadlineAt(s, p) {
      var rest := DeadlineMatchesExact(s, p + 10);
      DeadlineStartsCons(s, p, rest);
      pos := [p] + rest;
    } else {
      pos := DeadlineMatchesExact(s, p + 1);
      DeadlineStartsSkip(s, p, pos);
    }
  }

  function DigitRun(s: string, p: nat): (n: nat)
    ensures p + n <= |s| || n == 0
    ensures forall i :: p <= i < p + n ==> IsDigit(s[i])
    ensures p + n < |s| ==> !IsDigit(s[p + n])
    decreases |s| - p
  {
    if p < |s| && IsDigit(s[p]) then 1 + DigitRun(s, p + 1) else 0
  }

  /** The length of `[0-9]{1,9}(?=回)` at `p`, 0 if it does not match there. */
  function CountLength(s: string, p: nat): nat
  {
    var n := DigitRun(s, p);
    if 1 <= n <= 9 && p + n < |s| && s[p + n] == TimesUnit then n else 0
  }

  /** The greedy, backtracking match of `[0-9]{1,9}(?=回)` has one possible length. */
  lemma CountLengthExact(s: string, p: nat, n: nat)
    ensures (n > 0 && CountLength(s, p) == n) <==>
            (1 <= n <= 9 && p + n < |s| && (forall i :: p <= i < p + n ==> IsDigit(s[i])) && s[p + n] == TimesUnit)
  {
    var r := DigitRun(s, p);
    if 1 <= n <= 9 && p + n < |s| && (forall i :: p <= i < p + n ==> IsDigit(s[i])) && s[p + n] == TimesUnit {
      assert !IsDigit(s[p + n]);
      assert r == n;
    }
  }

  /** The usage-count pattern matches at `q`: a count with its label before it. */
  predicate CountAt(s: string, q: nat)
  {
    q < |s| && CountLength(s, q) > 0 && LabelBefore(s, q, CountLabel)
  }

  /** Every usage count the global scan finds, in order. */
  function CountMatches(s: string, p: nat): (r: seq<string>)
    ensures forall i :: 0 <= i < |r| ==> 1 <= |r[i]| <= 9 && AllDigits(r[i])
    decreases |s| - p
  {
    if p >= |s| then []
    else
      var n := CountLength(s, p);
      if CountAt(s, p) then
        TokenWindow(s, p, n);
        [s[p..p + n]] + CountMatches(s, p + n)
      else CountMatches(s, p + 1)
  }

  /** No labelled count starts inside another count: the character before
      it would be a digit. */
  lemma NoCountInside(s: string, p: nat)
    requires CountLength(s, p) > 0
    ensures forall q :: p < q < p + CountLength(s, p) ==> !CountAt(s, q)
  {
    assert CountLabel[|CountLabel| - 1] == '数';
    forall q | p < q < p + CountLength(s, p)
      ensures !LabelBefore(s, q, CountLabel)
    {
      assert IsDigit(s[q - 1]);
      NoLabelBefore(s, q, CountLabel);
    }
  }

  /** A labelled count starts at `q`, and `t` is its digits. */
  predicate CountHit(s: string, q: nat, t: string)
  {
    CountAt(s, q) && t == s[q..q + CountLength(s, q)]
  }

  /** Each entry of `pos` is where a labelled count starts, and the count
      the scan from `p` reports in that place is the one starting there. */
  ghost predicate CountsAt(s: string, p: nat, pos: seq<nat>)
  {
    && |pos| == |CountMatches(s, p)|
    && (forall i {:trigger pos[i]} :: 0 <= i < |pos| ==> p <= pos[i] && CountHit(s, pos[i], CountMatches(s, p)[i]))
  }

  /** `pos` holds every labelled count at or after `p`. */
  ghost predicate AllCountsIn(s: string, p: nat, pos: seq<nat>)
  {
    forall q :: p <= q && CountAt(s, q) ==> q in pos
  }

  /** `pos` are the start positions of the counts the scan from `p` finds:
      exactly the labelled counts at or after `p`, left to right and without
      overlap. By CountLengthExact each is the digit run that `回` follows. */
  ghost predicate CountStarts(s: string, p: nat, pos: seq<nat>)
  {
    CountsAt(s, p, pos) && Spaced(pos, 1) && AllCountsIn(s, p, pos)
  }

  lemma CountsAtCons(s: string, p: nat, rest: seq<nat>)
    requires CountAt(s, p) && CountsAt(s, p + CountLength(s, p), rest)
    ensures CountsAt(s, p, [p] + rest)
  {
    var n := CountLength(s, p);
    var later := CountMatches(s, p + n);
    assert CountMatches(s, p) == [s[p..p + n]] + later;
    var pos := [p] + rest;
    forall i | 0 <= i < |pos|
      ensures p <= pos[i] && CountHit(s, pos[i], CountMatches(s, p)[i])
    {
      CountHitCons(s, p, rest, later, i);
    }
  }

  lemma CountHitCons(s: string, p: nat, rest: seq<nat>, later: seq<string>, i: nat)
    requires CountAt(s, p) && later == CountMatches(s, p + CountLength(s, p))
    requires CountsAt(s, p + CountLength(s, p), rest)
    requires CountMatches(s, p) == [s[p..p + CountLength(s, p)]] + later
    requires i <= |rest|
    ensures p <= ([p] + rest)[i] && CountHit(s, ([p] + rest)[i], CountMatches(s, p)[i])
  {
    if i > 0 {
      assert ([p] + rest)[i] == rest[i - 1] && CountMatches(s, p)[i] == later[i - 1];
      assert CountHit(s, rest[i - 1], later[i - 1]);
    }
  }

  lemma AllCountsInCons(s: string, p: nat, rest: seq<nat>)
    requires CountLength(s, p) > 0 && AllCountsIn(s, p + CountLength(s, p), rest)
    ensures AllCountsIn(s, p, [p] + rest)
  {
    var n := CountLength(s, p);
    NoCountInside(s, p);
    forall q | p + n <= q && CountAt(s, q)
      ensures q in [p] + rest
    {
      assert q in rest;
    }
  }

  lemma CountStartsCons(s: string, p: nat, rest: seq<nat>)
    requires CountAt(s, p) && CountStarts(s, p + CountLength(s, p), rest)
    ensures CountStarts(s, p, [p] + rest)
  {
    CountsAtCons(s, p, rest);
    SpacedCons(p, 1, rest);
    AllCountsInCons(s, p, rest);
  }

  lemma CountStartsSkip(s: string, p: nat, rest: seq<nat>)
    requires p < |s| && !CountAt(s, p) && CountStarts(s, p + 1, rest)
    ensures CountStarts(s, p, rest)
  {
    assert CountMatches(s, p) == CountMatches(s, p + 1);
  }

  /** The scan from `p` finds exactly the labelled counts at or after `p`. */
  lemma {:induction false} CountMatchesExact(s: string, p: nat) returns (pos: seq<nat>)
    ensures CountStarts(s, p, pos)
    decreases |s| - p
  {
    if p >= |s| {
      pos := [];
    } else if CountAt(s, p) {
      var rest := CountMatchesExact(s, p + CountLength(s, p));
      CountStartsCons(s, p, rest);
      pos := [p] + rest;
    } else {
      pos := CountMatchesExact(s, p + 1);
      CountStartsSkip(s, p, pos);
    }
  }

  // ---------------------------------------------------------------------
  // extractCode

  /** A mail as the mail service hands it over. */
  datatype Message = Message(body: string, plainBody: string, date: int)

  /** What extractCode returns: the match lists, with the usage count
      defaulted, and the receive date. An empty `limitDate` is a null match. */
  datatype Extracted = Extracted(
    codes: seq<string>,
    limitDate: seq<string>,
    limitNumberOfTimes: seq<string>,
    receiveDate: int)

  function ExtractCode(m: Message): (e: Extracted)
    ensures |e.limitNumberOfTimes| >= 1
    ensures forall i :: 0 <= i < |e.limitNumberOfTimes| ==> AllDigits(e.limitNumberOfTimes[i])
  {
    var times := CountMatches(m.plainBody, 0);
    Extracted(ExtractCodes(m.body), DeadlineMatches(m.plainBody, 0),
              if times == [] then ["1"] else times, m.date)
  }

  /** `Number(values["limitNumberOfTimes"])` as the loop bound: one numeral
      gives its value; a list of several is NaN, and no `i <= NaN` holds. */
  function UsageLimit(times: seq<string>): (limit: nat)
    ensures |times| != 1 ==> limit == 0
  {
    if |times| == 1 && AllDigits(times[0]) then DecimalValue(times[0]) else 0
  }

  /** The limit-date cell: what the sheet makes of the written match, blank
      when there was none. `dateOf` is the sheet's reading of a date text. */
  function DeadlineCell(dates: seq<string>, dateOf: string -> int): Option<int>
  {
    if dates == [] then None else Some(dateOf(dates[0]))
  }

  // ---------------------------------------------------------------------
  // writeSheet

  /** The cells every row of one writeSheet call shares. */
  datatype Stamp = Stamp(today: int, received: int, deadline: Option<int>)

  function OrdinalLabel(i: nat): string
  {
    Decimal(i) + "回目"
  }

  lemma OrdinalLabelInjective(i: nat, j: nat)
    requires OrdinalLabel(i) == OrdinalLabel(j)
    ensures i == j
  {
    var a, b := OrdinalLabel(i), OrdinalLabel(j);
    assert Decimal(i) == a[..|a| - 2];
    assert Decimal(j) == b[..|b| - 2];
    DecimalInjective(i, j);
  }

  function CodeRow(st: Stamp, code: string, i: nat): Row
  {
    Row(st.today, st.received, code, CodeAmount(code), OrdinalLabel(i), st.deadline, false)
  }

  function Min(a: int, b: int): int { if a <= b then a else b }
  function Max(a: int, b: int): int { if a <= b then b else a }

  /** The pass whose write is the last one to land on row `t`. */
  function PassOf(limit: nat, t: nat): nat
  {
    Min(limit, t + 1)
  }

  /** Row `t` after `limit` passes: pass `i` writes the codes from row
      `lastRow + i - 1` on, so each pass overwrites all but the first row of
      the pass before, and row `t` ends up holding ordinal `PassOf(limit, t)`
      of code `t + 1 - PassOf(limit, t)`. */
  function WrittenRow(st: Stamp, codes: seq<string>, limit: nat, t: nat): Row
    requires codes != [] && 1 <= limit && t < limit + |codes| - 1
  {
    CodeRow(st, codes[t + 1 - PassOf(limit, t)], PassOf(limit, t))
  }

  /** The rows writeSheet leaves after the old last row. */
  function WrittenRows(st: Stamp, codes: seq<string>, limit: nat): (w: seq<Row>)
    ensures |w| == if codes == [] || limit == 0 then 0 else limit + |codes| - 1
  {
    if codes == [] || limit == 0 then []
    else seq(limit + |codes| - 1, t requires 0 <= t < limit + |codes| - 1 => WrittenRow(st, codes, limit, t))
  }

  /** The length of the rows after `c` passes and `j` writes of pass `c + 1`. */
  function PartialLength(codes: seq<string>, c: nat, j: nat): nat
  {
    if codes == [] then 0 else Max(if c == 0 then 0 else c + |codes| - 1, c + j)
  }

  function PartialRow(st: Stamp, codes: seq<string>, c: nat, j: nat, t: nat): Row
    requires j <= |codes| && t < PartialLength(codes, c, j)
  {
    if c <= t < c + j then CodeRow(st, codes[t - c], c + 1) else WrittenRow(st, codes, c, t)
  }

  /** The rows after `c` complete passes and `j` writes of pass `c + 1`. */
  function PartialRows(st: Stamp, codes: seq<string>, c: nat, j: nat): (p: seq<Row>)
    requires j <= |codes|
    ensures |p| == PartialLength(codes, c, j)
  {
    seq(PartialLength(codes, c, j), t requires 0 <= t < PartialLength(codes, c, j) => PartialRow(st, codes, c, j, t))
  }

  lemma PartialStart(st: Stamp, codes: seq<string>, c: nat)
    ensures PartialRows(st, codes, c, 0) == WrittenRows(st, codes, c)
  {
  }

  lemma PartialStep(st: Stamp, codes: seq<string>, c: nat, j: nat)
    requires j < |codes|
    ensures var p := PartialRows(st, codes, c, j);
            var row := CodeRow(st, codes[j], c + 1);
            && c + j <= |p|
            && PartialRows(st, codes, c, j + 1) == if c + j < |p| then p[c + j := row] else p + [row]
  {
    var p, q := PartialRows(st, codes, c, j), PartialRows(st, codes, c, j + 1);
    var row := CodeRow(st, codes[j], c + 1);
    var r := if c + j < |p| then p[c + j := row] else p + [row];
    assert |q| == |r|;
    forall t | 0 <= t < |q|
      ensures q[t] == r[t]
    {
      if t != c + j {
        assert q[t] == PartialRow(st, codes, c, j + 1, t) == PartialRow(st, codes, c, j, t);
      }
    }
  }

  lemma PartialDone(st: Stamp, codes: seq<string>, c: nat)
    requires codes != []
    ensures PartialRows(st, codes, c, |codes|) == WrittenRows(st, codes, c + 1)
  {
    var p, w := PartialRows(st, codes, c, |codes|), WrittenRows(st, codes, c + 1);
    assert |p| == |w|;
    forall t | 0 <= t < |p|
      ensures p[t] == w[t]
    {
      assert p[t] == PartialRow(st, codes, c, |codes|, t);
      assert w[t] == WrittenRow(st, codes, c + 1, t);
      if t >= c {
        assert PassOf(c + 1, t) == c + 1;
      } else {
        assert PassOf(c + 1, t) == t + 1 == PassOf(c, t);
      }
    }
  }

  /** One write of the inner loop, at data row `|init| + c + j`, takes the
      rows after the old last row from `j` writes of the pass to `j + 1`. */
  lemma PassWrite(init: seq<Row>, st: Stamp, codes: seq<string>, c: nat, j: nat, before: seq<Row>, after: seq<Row>)
    requires j < |codes| && before == init + PartialRows(st, codes, c, j)
    requires var r, row := |init| + c + j, CodeRow(st, codes[j], c + 1);
             r <= |before| && after == if r < |before| then before[r := row] else before + [row]
    ensures after == init + PartialRows(st, codes, c, j + 1)
  {
    PartialStep(st, codes, c, j);
    WriteAfterPrefix(init, PartialRows(st, codes, c, j), c + j, CodeRow(st, codes[j], c + 1));
  }

  /** Writing at or just past the end of the rows after a fixed prefix. */
  lemma WriteAfterPrefix(a: seq<Row>, b: seq<Row>, i: nat, x: Row)
    requires i <= |b|
    ensures (if |a| + i < |a + b| then (a + b)[|a| + i := x] else (a + b) + [x])
            == a + (if i < |b| then b[i := x] else b + [x])
  {
    if i < |b| {
      assert (a + b)[|a| + i := x] == a + b[i := x];
    } else {
      assert (a + b) + [x] == a + (b + [x]);
    }
  }

  function StampOf(v: Extracted, today: int, dateOf: string -> int): Stamp
  {
    Stamp(today, v.receiveDate, DeadlineCell(v.limitDate, dateOf))
  }

  /** The cell writes of one code in pass `c + 1`: sheet data row `r`
      receives the code's row. */
  method WriteCodeRow(sheet: Sheet, ghost init: seq<Row>, st: Stamp, codes: seq<string>, c: nat, j: nat, r: nat)
    requires j < |codes| && r == |init| + c + j
    requires sheet.rows == init + PartialRows(st, codes, c, j)
    modifies sheet
    ensures sheet.rows == init + PartialRows(st, codes, c, j + 1)
  {
    ghost var before := sheet.rows;
    sheet.WriteRow(r, CodeRow(st, codes[j], c + 1));
    PassWrite(init, st, codes, c, j, before, sheet.rows);
  }

  /** Pass `c + 1` of writeSheet: every code in turn, from data row `lastRow` on. */
  method WritePass(sheet: Sheet, ghost init: seq<Row>, st: Stamp, codes: seq<string>, c: nat, lastRow: nat)
    requires lastRow == |init| + c
    requires sheet.rows == init + WrittenRows(st, codes, c)
    modifies sheet
    ensures sheet.rows == init + WrittenRows(st, codes, c + 1)
  {
    var index := 0;
    PartialStart(st, codes, c);
    while index < |codes|
      invariant 0 <= index <= |codes|
      invariant sheet.rows == init + PartialRows(st, codes, c, index)
    {
      WriteCodeRow(sheet, init, st, codes, c, index, lastRow + index);
      index := index + 1;
    }
    if codes != [] {
      PartialDone(st, codes, c);
    }
  }

  /** writeSheet: `lastRow` is the data index of the first row after the old
      last row (sheet row getLastRow() + 1). */
  method WriteSheet(sheet: Sheet, v: Extracted, today: int, dateOf: string -> int)
    modifies sheet
    ensures sheet.rows == old(sheet.rows) + WrittenRows(StampOf(v, today, dateOf), v.codes, UsageLimit(v.limitNumberOfTimes))
  {
    var st := StampOf(v, today, dateOf);
    var limit := UsageLimit(v.limitNumberOfTimes);
    ghost var init := sheet.rows;
    var lastRow := |sheet.rows|;
    var i := 1;
    while i <= limit
      invariant 1 <= i <= limit + 1
      invariant lastRow == |init| + i - 1
      invariant sheet.rows == init + WrittenRows(st, v.codes, i - 1)
    {
      WritePass(sheet, init, st, v.codes, i - 1, lastRow);
      lastRow := lastRow + 1;
      i := i + 1;
    }
  }

  /** With one code and limit L: L rows, ordinals 1回目 to L回目, all of that code. */
  lemma WriteSheetOneCode(st: Stamp, code: string, limit: nat)
    ensures var w := WrittenRows(st, [code], limit);
            && |w| == limit
            && forall t :: 0 <= t < limit ==>
                 && w[t] == CodeRow(st, code, t + 1)
                 && w[t].code == code && w[t].amount == CodeAmount(code)
                 && w[t].ordinal == OrdinalLabel(t + 1) && !w[t].used
  {
  }

  /** With limit 1 and n codes: n rows, the codes in order, each 1回目. */
  lemma WriteSheetLimitOne(st: Stamp, codes: seq<string>)
    ensures var w := WrittenRows(st, codes, 1);
            && |w| == |codes|
            && forall t :: 0 <= t < |codes| ==> w[t] == CodeRow(st, codes[t], 1)
  {
  }

  /** With two or more codes and a limit of two or more the passes overlap:
      L + n - 1 rows are left, and the first use of the second code is gone. */
  lemma WriteSheetOverlap(st: Stamp, codes: seq<string>, limit: nat)
    requires |codes| >= 2 && limit >= 2 && codes[0] != codes[1]
    ensures var w := WrittenRows(st, codes, limit);
            && |w| == limit + |codes| - 1
            && forall t :: 0 <= t < |w| ==> !(w[t].code == codes[1] && w[t].ordinal == OrdinalLabel(1))
  {
    var w := WrittenRows(st, codes, limit);
    forall t | 0 <= t < |w|
      ensures !(w[t].code == codes[1] && w[t].ordinal == OrdinalLabel(1))
    {
      if w[t].ordinal == OrdinalLabel(1) {
        OrdinalLabelInjective(PassOf(limit, t), 1);
      }
    }
  }

  /** Every written row holds a code token, its classifier label, and an unchecked flag. */
  lemma WrittenRowsShape(st: Stamp, codes: seq<string>, limit: nat)
    requires forall i :: 0 <= i < |codes| ==> IsCodeToken(codes[i])
    ensures var w := WrittenRows(st, codes, limit);
            forall t :: 0 <= t < |w| ==> IsCodeToken(w[t].code) && w[t].amount == CodeAmount(w[t].code) && !w[t].used
  {
  }

  // ---------------------------------------------------------------------
  // removeDupilicatedRecords

  method RemoveDuplicatedRecords(sheet: Sheet)
    modifies sheet
    ensures sheet.rows == KeepFirst(old(sheet.rows))
  {
    sheet.rows := KeepFirst(sheet.rows);
  }

  // ---------------------------------------------------------------------
  // getPromotionCodes

  predicate HasCodes(m: Message)
  {
    ExtractCodes(m.body) != []
  }

  predicate AllHaveCodes(threads: seq<seq<Message>>)
  {
    forall t, j {:trigger HasCodes(threads[t][j])} :: 0 <= t < |threads| && 0 <= j < |threads[t]| ==> HasCodes(threads[t][j])
  }

  /** The rows writeSheet adds for one message. */
  function MessageRows(m: Message, today: int, dateOf: string -> int): seq<Row>
  {
    var v := ExtractCode(m);
    WrittenRows(StampOf(v, today, dateOf), v.codes, UsageLimit(v.limitNumberOfTimes))
  }

  function AppendMessages(rows: seq<Row>, msgs: seq<Message>, today: int, dateOf: string -> int): seq<Row>
  {
    if msgs == [] then rows
    else AppendMessages(rows, msgs[..|msgs| - 1], today, dateOf) + MessageRows(msgs[|msgs| - 1], today, dateOf)
  }

  /** The ledger after whole threads: each thread's messages written, then duplicates removed. */
  function AfterThreads(rows: seq<Row>, threads: seq<seq<Message>>, today: int, dateOf: string -> int): seq<Row>
  {
    if threads == [] then rows
    else KeepFirst(AppendMessages(AfterThreads(rows, threads[..|threads| - 1], today, dateOf), threads[|threads| - 1], today, dateOf))
  }

  lemma AppendMessagesStep(rows: seq<Row>, msgs: seq<Message>, m: nat, today: int, dateOf: string -> int)
    requires m < |msgs|
    ensures AppendMessages(rows, msgs[..m + 1], today, dateOf)
            == AppendMessages(rows, msgs[..m], today, dateOf) + MessageRows(msgs[m], today, dateOf)
  {
    assert msgs[..m + 1][..m] == msgs[..m];
  }

  /** One message of the thread loop, written: the prefix so far grows by it. */
  lemma ThreadStep(before: seq<Row>, messages: seq<Message>, m: nat, rowsBefore: seq<Row>, rowsAfter: seq<Row>,
                   today: int, dateOf: string -> int)
    requires m < |messages| && HasCodes(messages[m])
    requires forall j {:trigger HasCodes(messages[j])} :: 0 <= j < m ==> HasCodes(messages[j])
    requires rowsBefore == AppendMessages(before, messages[..m], today, dateOf)
    requires rowsAfter == rowsBefore + MessageRows(messages[m], today, dateOf)
    ensures forall j {:trigger HasCodes(messages[j])} :: 0 <= j < m + 1 ==> HasCodes(messages[j])
    ensures rowsAfter == AppendMessages(before, messages[..m + 1], today, dateOf)
  {
    AppendMessagesStep(before, messages, m, today, dateOf);
  }

  lemma AfterThreadsStep(rows: seq<Row>, threads: seq<seq<Message>>, t: nat, today: int, dateOf: string -> int)
    requires t < |threads|
    ensures AfterThreads(rows, threads[..t + 1], today, dateOf)
            == KeepFirst(AppendMessages(AfterThreads(rows, threads[..t], today, dateOf), threads[t], today, dateOf))
  {
    assert threads[..t + 1][..t] == threads[..t];
  }

  lemma AllHaveCodesStep(threads: seq<seq<Message>>, t: nat)
    requires t < |threads| && AllHaveCodes(threads[..t])
    requires forall j {:trigger HasCodes(threads[t][j])} :: 0 <= j < |threads[t]| ==> HasCodes(threads[t][j])
    ensures AllHaveCodes(threads[..t + 1])
  {
    var pre, next := threads[..t], threads[..t + 1];
    forall u, j | 0 <= u < t + 1 && 0 <= j < |next[u]|
      ensures HasCodes(next[u][j])
    {
      if u < t {
        assert next[u] == pre[u];
      }
    }
  }

  /** One message of getPromotionCodes: its values are extracted and, when
      it has codes, written; `written` is false where the source throws. */
  method WriteMessage(sheet: Sheet, message: Message, today: int, dateOf: string -> int)
    returns (written: bool)
    modifies sheet
    ensures written == HasCodes(message)
    ensures sheet.rows == if written then old(sheet.rows) + MessageRows(message, today, dateOf) else old(sheet.rows)
  {
    var values := ExtractCode(message);
    if |values.codes| == 0 {
      return false;
    }
    WriteSheet(sheet, values, today, dateOf);
    return true;
  }

  /** The inner loop of getPromotionCodes: the messages of one thread, each
      written in turn; `failed` is the first message without codes, which
      raises the error that ends the run. */
  method WriteThread(sheet: Sheet, messages: seq<Message>, today: int, dateOf: string -> int)
    returns (failed: Option<nat>)
    modifies sheet
    ensures failed.None? ==>
              && (forall j {:trigger HasCodes(messages[j])} :: 0 <= j < |messages| ==> HasCodes(messages[j]))
              && sheet.rows == AppendMessages(old(sheet.rows), messages, today, dateOf)
    ensures failed.Some? ==>
              var m := failed.value;
              && m < |messages|
              && (forall j {:trigger HasCodes(messages[j])} :: 0 <= j < m ==> HasCodes(messages[j]))
              && !HasCodes(messages[m])
              && sheet.rows == AppendMessages(old(sheet.rows), messages[..m], today, dateOf)
  {
    ghost var before := sheet.rows;
    var m := 0;
    while m < |messages|
      invariant 0 <= m <= |messages|
      invariant forall j {:trigger HasCodes(messages[j])} :: 0 <= j < m ==> HasCodes(messages[j])
      invariant sheet.rows == AppendMessages(before, messages[..m], today, dateOf)
    {
      ghost var rowsBefore := sheet.rows;
      var written := WriteMessage(sheet, messages[m], today, dateOf);
      if !written {
        return Some(m);
      }
      ThreadStep(before, messages, m, rowsBefore, sheet.rows, today, dateOf);
      m := m + 1;
    }
    assert messages[..m] == messages;
    return None;
  }

  /** getPromotionCodes over the labelled threads. `labeled` threads get the
      processed label; `failure` names the message without codes that raised
      the error, after which nothing further is written or labelled. */
  method GetPromotionCodes(sheet: Sheet, threads: seq<seq<Message>>, today: int, dateOf: string -> int)
    returns (labeled: nat, failure: Option<(nat, nat)>)
    modifies sheet
    ensures failure.None? ==>
              && labeled == |threads| && AllHaveCodes(threads)
              && sheet.rows == AfterThreads(old(sheet.rows), threads, today, dateOf)
    ensures failure.Some? ==>
              var (t, m) := failure.value;
              && t < |threads| && m < |threads[t]| && labeled == t
              && AllHaveCodes(threads[..t])
              && (forall j {:trigger HasCodes(threads[t][j])} :: 0 <= j < m ==> HasCodes(threads[t][j]))
              && !HasCodes(threads[t][m])
              && sheet.rows == AppendMessages(AfterThreads(old(sheet.rows), threads[..t], today, dateOf), threads[t][..m], today, dateOf)
  {
    labeled, failure := 0, None;
    ghost var init := sheet.rows;
    var t := 0;
    while t < |threads|
      invariant 0 <= t <= |threads| && labeled == t
      invariant AllHaveCodes(threads[..t])
      invariant sheet.rows == AfterThreads(init, threads[..t], today, dateOf)
    {
      var failed := WriteThread(sheet, threads[t], today, dateOf);
      if failed.Some? {
        failure := Some((t, failed.value));
        return;
      }
      AfterThreadsStep(init, threads, t, today, dateOf);
      AllHaveCodesStep(threads, t);
      RemoveDuplicatedRecords(sheet);
      // upsertConditionalFormatRule changes only presentation.
      labeled := labeled + 1;
      t := t + 1;
    }
    assert threads[..t] == threads;
  }

  /** A message without codes writes no row. */
  lemma NoCodesNoRows(m: Message, today: int, dateOf: string -> int)
    requires !HasCodes(m)
    ensures MessageRows(m, today, dateOf) == []
  {
  }

  /** Without a usage-count line a code gets exactly one row per pass: the limit is 1. */
  lemma DefaultUsageLimit(m: Message)
    requires CountMatches(m.plainBody, 0) == []
    ensures UsageLimit(ExtractCode(m).limitNumberOfTimes) == 1
  {
    assert DecimalValue("1") == DecimalValue("") * 10 + DigitValue('1');
  }

  /** A usage count stated twice makes the limit NaN, and nothing is written. */
  lemma RepeatedUsageCountWritesNothing(m: Message, today: int, dateOf: string -> int)
    requires |CountMatches(m.plainBody, 0)| >= 2
    ensures MessageRows(m, today, dateOf) == []
  {
  }

  /** Two labelled usage counts anywhere in the plain body make the limit
      NaN, so the message writes no row. */
  lemma TwoCountLinesWriteNothing(m: Message, today: int, dateOf: string -> int, q1: nat, q2: nat)
    requires q1 != q2 && CountAt(m.plainBody, q1) && CountAt(m.plainBody, q2)
    ensures MessageRows(m, today, dateOf) == []
  {
    var pos := CountMatchesExact(m.plainBody, 0);
    assert AllCountsIn(m.plainBody, 0, pos);
    assert q1 in pos && q2 in pos;
    assert |pos| >= 2;
    RepeatedUsageCountWritesNothing(m, today, dateOf);
  }

  lemma {:induction false} CountMatchesNone(s: string, p: nat)
    requires forall q :: p <= q ==> !CountAt(s, q)
    ensures CountMatches(s, p) == []
    decreases |s| - p
  {
    if p < |s| {
      CountMatchesNone(s, p + 1);
    }
  }

  /** Without a labelled usage count anywhere the limit is 1. */
  lemma NoCountLineLimitOne(m: Message)
    requires forall q :: !CountAt(m.plainBody, q)
    ensures UsageLimit(ExtractCode(m).limitNumberOfTimes) == 1
  {
    CountMatchesNone(m.plainBody, 0);
    DefaultUsageLimit(m);
  }

  /** The same message ingested twice, at any two times, leaves after duplicate
      removal what ingesting it once does: column 1 is not part of the key. */
  lemma RepeatedMessageCollapses(rows: seq<Row>, m: Message, today1: int, today2: int, dateOf: string -> int)
    ensures KeepFirst(rows + MessageRows(m, today1, dateOf) + MessageRows(m, today2, dateOf))
            == KeepFirst(rows + MessageRows(m, today1, dateOf))
  {
    var w1, w2 := MessageRows(m, today1, dateOf), MessageRows(m, today2, dateOf);
    KeysPointwise(w2, w1);
    KeysAppend(rows, w1);
    KeepFirstAbsorbs(rows + w1, w2);
  }
}
