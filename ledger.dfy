/** The code ledger: the main sheet "コード一覧" as a sequence of data rows
    with its seven columns, the duplicate key used after ingestion, and the
    read-only queries the bot runs against it. */
module Ledger {
  import opened Text

  datatype Option<T> = None | Some(value: T)

  /** One ledger row; the fields are columns 1 to 7 in order. Dates are day
      numbers; a blank limit-date cell is `None`. */
  datatype Row = Row(
    insertedAt: int,         // column 1, 記入日
    receivedAt: int,         // column 2, メール受信日
    code: string,            // column 3, プロモコード
    amount: string,          // column 4, 容量
    ordinal: string,         // column 5, 使用回数 ("1回目", "2回目", ...)
    limitDate: Option<int>,  // column 6, 利用期限
    used: bool)              // column 7, 使用済みフラグ (checkbox)

  /** The sheet object whose rows ingestion and the bot change in place.
      `rows[k]` is sheet row `k + 2`: row 1 holds the column headers. */
  class Sheet {
    var rows: seq<Row>

    constructor (initial: seq<Row>)
      ensures rows == initial
    {
      rows := initial;
    }

    /** Writing the cells of data row `r`; a write just past the end adds a row. */
    method WriteRow(r: nat, row: Row)
      requires r <= |rows|
      modifies this
      ensures rows == if r < |old(rows)| then old(rows)[r := row] else old(rows) + [row]
    {
      if r < |rows| {
        rows := rows[r := row];
      } else {
        rows := rows + [row];
      }
    }
  }

  // ---------------------------------------------------------------------
  // Duplicate removal: columns 2, 3, 4, 5 and 7 form the key.

  datatype Key = Key(receivedAt: int, code: string, amount: string, ordinal: string, used: bool)

  function KeyOf(r: Row): Key
  {
    Key(r.receivedAt, r.code, r.amount, r.ordinal, r.used)
  }

  function Keys(s: seq<Row>): set<Key>
  {
    if s == [] then {} else Keys(s[..|s| - 1]) + {KeyOf(s[|s| - 1])}
  }

  predicate NoDuplicateKeys(s: seq<Row>)
  {
    forall i, j :: 0 <= i < j < |s| ==> KeyOf(s[i]) != KeyOf(s[j])
  }

  /** The rows that survive duplicate removal: a row stays exactly when no
      earlier row has its key, and the survivors keep their order. */
  function KeepFirst(s: seq<Row>): seq<Row>
  {
    if s == [] then []
    else
      var init, last := s[..|s| - 1], s[|s| - 1];
      KeepFirst(init) + (if KeyOf(last) in Keys(init) then [] else [last])
  }

  lemma {:induction false} KeysHas(s: seq<Row>, i: nat)
    requires i < |s|
    ensures KeyOf(s[i]) in Keys(s)
  {
    if i < |s| - 1 {
      KeysHas(s[..|s| - 1], i);
    }
  }

  lemma {:induction false} KeysWitness(s: seq<Row>, k: Key) returns (i: nat)
    requires k in Keys(s)
    ensures i < |s| && KeyOf(s[i]) == k
  {
    if KeyOf(s[|s| - 1]) == k {
      i := |s| - 1;
    } else {
      i := KeysWitness(s[..|s| - 1], k);
    }
  }

  lemma {:induction false} KeysMissing(s: seq<Row>, k: Key)
    requires forall i :: 0 <= i < |s| ==> KeyOf(s[i]) != k
    ensures k !in Keys(s)
  {
    if s != [] {
      KeysMissing(s[..|s| - 1], k);
    }
  }

  lemma {:induction false} KeysAppend(s: seq<Row>, t: seq<Row>)
    ensures Keys(s + t) == Keys(s) + Keys(t)
    decreases |t|
  {
    if t != [] {
      var init := t[..|t| - 1];
      assert (s + t)[..|s + t| - 1] == s + init;
      KeysAppend(s, init);
    } else {
      assert s + t == s;
    }
  }

  /** Two ledgers whose rows agree on the key columns have the same keys. */
  lemma {:induction false} KeysPointwise(s: seq<Row>, t: seq<Row>)
    requires |s| == |t|
    requires forall i :: 0 <= i < |s| ==> KeyOf(s[i]) == KeyOf(t[i])
    ensures Keys(s) == Keys(t)
  {
    if s != [] {
      KeysPointwise(s[..|s| - 1], t[..|t| - 1]);
    }
  }

  /** Duplicate removal loses no key. */
  lemma {:induction false} KeepFirstKeys(s: seq<Row>)
    ensures Keys(KeepFirst(s)) == Keys(s)
  {
    if s != [] {
      var init, last := s[..|s| - 1], s[|s| - 1];
      KeepFirstKeys(init);
      var p := KeepFirst(init);
      if KeyOf(last) in Keys(init) {
        assert p + [] == p;
      } else {
        assert (p + [last])[..|p|] == p;
      }
    }
  }

  /** After duplicate removal no two rows agree on columns 2, 3, 4, 5 and 7. */
  lemma {:induction false} KeepFirstNoDuplicates(s: seq<Row>)
    ensures NoDuplicateKeys(KeepFirst(s))
  {
    if s != [] {
      var init, last := s[..|s| - 1], s[|s| - 1];
      KeepFirstNoDuplicates(init);
      KeepFirstKeys(init);
      var p := KeepFirst(init);
      if KeyOf(last) !in Keys(init) {
        forall i | 0 <= i < |p|
          ensures KeyOf(p[i]) != KeyOf(last)
        {
          KeysHas(p, i);
        }
      }
    }
  }

  /** Every surviving row is a row of the input, and none is added. */
  lemma {:induction false} KeepFirstSubset(s: seq<Row>)
    ensures |KeepFirst(s)| <= |s|
    ensures forall r :: r in KeepFirst(s) ==> r in s
  {
    if s != [] {
      KeepFirstSubset(s[..|s| - 1]);
    }
  }

  /** A row whose key no earlier row has survives. */
  lemma {:induction false} KeepFirstKeepsFirst(s: seq<Row>, i: nat)
    requires i < |s| && KeyOf(s[i]) !in Keys(s[..i])
    ensures s[i] in KeepFirst(s)
  {
    var init := s[..|s| - 1];
    if i < |s| - 1 {
      assert init[..i] == s[..i];
      KeepFirstKeepsFirst(init, i);
    } else {
      assert init == s[..i];
    }
  }

  /** The survivors are input rows in their input order, each the first row
      with its key: `idx` gives their positions. */
  lemma {:induction false} KeepFirstOrder(s: seq<Row>) returns (idx: seq<nat>)
    ensures |idx| == |KeepFirst(s)|
    ensures forall i :: 0 <= i < |idx| ==>
              idx[i] < |s| && KeepFirst(s)[i] == s[idx[i]] && KeyOf(s[idx[i]]) !in Keys(s[..idx[i]])
    ensures forall i, j :: 0 <= i < j < |idx| ==> idx[i] < idx[j]
  {
    if s == [] {
      idx := [];
    } else {
      var init, last := s[..|s| - 1], s[|s| - 1];
      var before := KeepFirstOrder(init);
      forall i | 0 <= i < |before|
        ensures s[before[i]] == init[before[i]] && s[..before[i]] == init[..before[i]]
      {
      }
      if KeyOf(last) in Keys(init) {
        idx := before;
      } else {
        idx := before + [|s| - 1];
        assert s[..|s| - 1] == init;
      }
    }
  }

  /** A ledger without duplicates is left as it is, and only such a ledger. */
  lemma {:induction false} KeepFirstIdentity(s: seq<Row>)
    ensures KeepFirst(s) == s <==> NoDuplicateKeys(s)
  {
    KeepFirstNoDuplicates(s);
    if NoDuplicateKeys(s) && s != [] {
      var init, last := s[..|s| - 1], s[|s| - 1];
      assert NoDuplicateKeys(init);
      KeepFirstIdentity(init);
      KeysMissing(init, KeyOf(last));
      assert s == init + [last];
    }
  }

  /** Removing duplicates twice is removing them once. */
  lemma KeepFirstIdempotent(s: seq<Row>)
    ensures KeepFirst(KeepFirst(s)) == KeepFirst(s)
  {
    KeepFirstNoDuplicates(s);
    KeepFirstIdentity(KeepFirst(s));
  }

  /** Rows whose keys are all already present collapse away entirely. */
  lemma {:induction false} KeepFirstAbsorbs(s: seq<Row>, t: seq<Row>)
    requires Keys(t) <= Keys(s)
    ensures KeepFirst(s + t) == KeepFirst(s)
    decreases |t|
  {
    if t == [] {
      assert s + t == s;
    } else {
      var init := t[..|t| - 1];
      assert (s + t)[..|s + t| - 1] == s + init;
      assert (s + t)[|s + t| - 1] == t[|t| - 1];
      KeysAppend(s, init);
      KeysHas(t, |t| - 1);
      assert Keys(init) <= Keys(t);
      KeepFirstAbsorbs(s, init);
    }
  }

  // ---------------------------------------------------------------------
  // getReturnPromoCode: an unused row whose amount starts with the prefix,
  // with the earliest limit date (a blank date sorts first).

  predicate Candidate(r: Row, prefix: string)
  {
    !r.used && HasPrefix(r.amount, prefix)
  }

  predicate DateLe(a: Option<int>, b: Option<int>)
  {
    a.None? || (b.Some? && a.value <= b.value)
  }

  ghost predicate IsEarliestCandidate(rows: seq<Row>, prefix: string, k: nat)
  {
    && k < |rows|
    && Candidate(rows[k], prefix)
    && forall j :: 0 <= j < |rows| && Candidate(rows[j], prefix) ==> DateLe(rows[k].limitDate, rows[j].limitDate)
  }

  /** An earliest candidate among the first `n` rows; on a tie the first in
      ledger order, a choice the contracts below do not rely on. */
  function EarliestAmong(rows: seq<Row>, prefix: string, n: nat): (b: Option<nat>)
    requires n <= |rows|
    ensures b.None? <==> forall k :: 0 <= k < n ==> !Candidate(rows[k], prefix)
    ensures b.Some? ==> IsEarliestCandidate(rows[..n], prefix, b.value)
  {
    if n == 0 then None
    else
      var b := EarliestAmong(rows, prefix, n - 1);
      assert rows[..n][..n - 1] == rows[..n - 1];
      if !Candidate(rows[n - 1], prefix) then b
      else if b.None? then Some(n - 1)
      else if !DateLe(rows[b.value].limitDate, rows[n - 1].limitDate) then Some(n - 1)
      else b
  }

  /** The code the bot hands out for a denomination prefix, `""` when no
      unused row has an amount with that prefix. */
  function ReturnPromoCode(rows: seq<Row>, prefix: string): (code: string)
    ensures (forall k :: 0 <= k < |rows| ==> !Candidate(rows[k], prefix)) ==> code == ""
    ensures (exists k :: 0 <= k < |rows| && Candidate(rows[k], prefix)) ==>
              exists k: nat :: IsEarliestCandidate(rows, prefix, k) && rows[k].code == code
  {
    var b := EarliestAmong(rows, prefix, |rows|);
    assert rows[..|rows|] == rows;
    match b
    case None => ""
    case Some(k) => rows[k].code
  }

  // ---------------------------------------------------------------------
  // getPromoCodeList: unused rows counted per amount.

  function CountUnused(rows: seq<Row>, amount: string): (n: nat)
    ensures n <= |rows|
  {
    if rows == [] then 0
    else CountUnused(rows[..|rows| - 1], amount)
         + (if !rows[|rows| - 1].used && rows[|rows| - 1].amount == amount then 1 else 0)
  }

  /** The count is the number of unused row indices that carry the amount. */
  lemma {:induction false} CountUnusedIsCard(rows: seq<Row>, a: string)
    ensures CountUnused(rows, a) == |set k | 0 <= k < |rows| && UnusedOfAmount(rows, k, a)|
  {
    if rows != [] {
      var n := |rows| - 1;
      var init := rows[..n];
      CountUnusedIsCard(init, a);
      var all := set k | 0 <= k < |rows| && UnusedOfAmount(rows, k, a);
      var before := set k | 0 <= k < |init| && UnusedOfAmount(init, k, a);
      assert forall k :: 0 <= k < n ==> (UnusedOfAmount(rows, k, a) <==> UnusedOfAmount(init, k, a));
      if UnusedOfAmount(rows, n, a) {
        assert all == before + {n};
      } else {
        assert all == before;
      }
    }
  }

  lemma {:induction false} CountUnusedPositive(rows: seq<Row>, k: nat)
    requires k < |rows| && !rows[k].used
    ensures CountUnused(rows, rows[k].amount) >= 1
  {
    if k < |rows| - 1 {
      CountUnusedPositive(rows[..|rows| - 1], k);
    }
  }

  /** Row k is unused and of amount a. */
  predicate UnusedOfAmount(rows: seq<Row>, k: int, a: string)
  {
    0 <= k < |rows| && !rows[k].used && rows[k].amount == a
  }

  /** An amount counted at least once is that of some unused row. */
  lemma {:induction false} CountUnusedWitness(rows: seq<Row>, a: string)
    requires CountUnused(rows, a) >= 1
    ensures exists k :: UnusedOfAmount(rows, k, a)
  {
    var init := rows[..|rows| - 1];
    if CountUnused(init, a) >= 1 {
      CountUnusedWitness(init, a);
      var k :| UnusedOfAmount(init, k, a);
      assert rows[k] == init[k];
      assert UnusedOfAmount(rows, k, a);
    } else {
      assert UnusedOfAmount(rows, |rows| - 1, a);
    }
  }

  /** The distinct amounts of unused rows, in order of first appearance. */
  function UnusedAmounts(rows: seq<Row>): (r: seq<string>)
    ensures forall i, j :: 0 <= i < j < |r| ==> r[i] != r[j]
  {
    if rows == [] then []
    else
      var init, last := rows[..|rows| - 1], rows[|rows| - 1];
      var p := UnusedAmounts(init);
      if !last.used && last.amount !in p then p + [last.amount] else p
  }

  /** Each listed amount is that of some unused row. */
  lemma {:induction false} UnusedAmountsSound(rows: seq<Row>, i: nat)
    requires i < |UnusedAmounts(rows)|
    ensures exists k :: UnusedOfAmount(rows, k, UnusedAmounts(rows)[i])
  {
    var init := rows[..|rows| - 1];
    var p := UnusedAmounts(init);
    if i < |p| {
      UnusedAmountsSound(init, i);
      var k :| UnusedOfAmount(init, k, p[i]);
      assert rows[k] == init[k];
      assert UnusedOfAmount(rows, k, UnusedAmounts(rows)[i]);
    } else {
      assert UnusedOfAmount(rows, |rows| - 1, UnusedAmounts(rows)[i]);
    }
  }

  /** The amount of every unused row is listed. */
  lemma {:induction false} UnusedAmountsComplete(rows: seq<Row>, k: nat)
    requires k < |rows| && !rows[k].used
    ensures rows[k].amount in UnusedAmounts(rows)
  {
    var init := rows[..|rows| - 1];
    var p := UnusedAmounts(init);
    if k < |rows| - 1 {
      assert init[k] == rows[k];
      UnusedAmountsComplete(init, k);
      assert p <= UnusedAmounts(rows);
    }
  }

  function CountEach(rows: seq<Row>, amounts: seq<string>): (r: seq<(string, nat)>)
    ensures |r| == |amounts|
    ensures forall i :: 0 <= i < |r| ==> r[i] == (amounts[i], CountUnused(rows, amounts[i]))
  {
    if amounts == [] then [] else [(amounts[0], CountUnused(rows, amounts[0]))] + CountEach(rows, amounts[1..])
  }

  /** The grouped count: one entry per distinct amount among unused rows,
      with the number of unused rows of that amount. */
  function UnusedSummary(rows: seq<Row>): seq<(string, nat)>
  {
    CountEach(rows, UnusedAmounts(rows))
  }

  /** Entry i of the summary is for amount a. */
  predicate EntryFor(r: seq<(string, nat)>, i: int, a: string)
  {
    0 <= i < |r| && r[i].0 == a
  }

  /** What the grouped count promises: distinct amounts, every unused row's
      amount present, and exact counts of at least one, so that each listed
      amount is that of some unused row (CountUnusedWitness). */
  ghost predicate IsUnusedSummary(rows: seq<Row>, r: seq<(string, nat)>)
  {
    && (forall i, j :: 0 <= i < j < |r| ==> r[i].0 != r[j].0)
    && (forall k :: 0 <= k < |rows| && !rows[k].used ==> exists i :: EntryFor(r, i, rows[k].amount))
    && (forall i :: 0 <= i < |r| ==> r[i].1 == CountUnused(rows, r[i].0) && r[i].1 >= 1)
  }

  lemma UnusedSummarySpec(rows: seq<Row>)
    ensures IsUnusedSummary(rows, UnusedSummary(rows))
  {
    var amounts := UnusedAmounts(rows);
    var r := CountEach(rows, amounts);
    assert forall i, j :: 0 <= i < j < |r| ==> r[i].0 != r[j].0 by {
      forall i, j | 0 <= i < j < |r|
        ensures r[i].0 != r[j].0
      {
        assert r[i].0 == amounts[i] && r[j].0 == amounts[j];
      }
    }
    forall i | 0 <= i < |r|
      ensures r[i].1 == CountUnused(rows, r[i].0) && r[i].1 >= 1
    {
      UnusedAmountsSound(rows, i);
      var k :| UnusedOfAmount(rows, k, amounts[i]);
      CountUnusedPositive(rows, k);
    }
    assert forall k :: 0 <= k < |rows| && !rows[k].used ==> exists i :: EntryFor(r, i, rows[k].amount) by {
      forall k | 0 <= k < |rows| && !rows[k].used
        ensures exists i :: EntryFor(r, i, rows[k].amount)
      {
        UnusedAmountsComplete(rows, k);
        var i :| 0 <= i < |amounts| && amounts[i] == rows[k].amount;
        assert EntryFor(r, i, rows[k].amount);
      }
    }
  }

  function SummaryLine(entry: (string, nat)): string
  {
    entry.0 + ": " + Decimal(entry.1) + "個"
  }

  function SummaryLines(summary: seq<(string, nat)>): (lines: seq<string>)
    ensures |lines| == |summary|
    ensures forall i :: 0 <= i < |lines| ==> lines[i] == SummaryLine(summary[i])
  {
    if summary == [] then [] else [SummaryLine(summary[0])] + SummaryLines(summary[1..])
  }

  /** The text of the count reply: `amount: count個` lines joined by newlines. */
  function PromoCodeList(rows: seq<Row>): string
  {
    Join(SummaryLines(UnusedSummary(rows)), "\n")
  }

  lemma SummaryLineSingle(entry: (string, nat))
    requires '\n' !in entry.0
    ensures '\n' !in SummaryLine(entry)
  {
    var d := Decimal(entry.1);
    assert forall m :: 0 <= m < |d| ==> d[m] != '\n';
    assert SummaryLine(entry) == entry.0 + ": " + d + "個";
  }

  /** Each line of the count reply is one amount with its count. */
  lemma PromoCodeListLines(rows: seq<Row>)
    requires forall k :: 0 <= k < |rows| ==> '\n' !in rows[k].amount
    requires exists k :: 0 <= k < |rows| && !rows[k].used
    ensures Split(PromoCodeList(rows), '\n') == SummaryLines(UnusedSummary(rows))
  {
    var summary := UnusedSummary(rows);
    var lines := SummaryLines(summary);
    UnusedSummarySpec(rows);
    var k :| 0 <= k < |rows| && !rows[k].used;
    var e :| EntryFor(summary, e, rows[k].amount);
    assert |lines| >= 1;
    forall i | 0 <= i < |lines|
      ensures '\n' !in lines[i]
    {
      CountUnusedWitness(rows, summary[i].0);
      var j :| UnusedOfAmount(rows, j, summary[i].0);
      assert '\n' !in rows[j].amount;
      SummaryLineSingle(summary[i]);
    }
    SplitJoin(lines, '\n');
  }

  // ---------------------------------------------------------------------
  // findUpdateTargetRow / updateUsedFlagTrue on values.

  predicate UnusedWithCode(r: Row, code: string)
  {
    r.code == code && !r.used
  }

  /** The first unused row at or after `i` that holds `code`. */
  function FirstUnusedFrom(rows: seq<Row>, code: string, i: nat): (f: Option<nat>)
    requires i <= |rows|
    ensures f.None? ==> forall k :: i <= k < |rows| ==> !UnusedWithCode(rows[k], code)
    ensures f.Some? ==>
              && i <= f.value < |rows| && UnusedWithCode(rows[f.value], code)
              && forall k :: i <= k < f.value ==> !UnusedWithCode(rows[k], code)
    decreases |rows| - i
  {
    if i == |rows| then None
    else if UnusedWithCode(rows[i], code) then Some(i)
    else FirstUnusedFrom(rows, code, i + 1)
  }

  function FirstUnused(rows: seq<Row>, code: string): Option<nat>
  {
    FirstUnusedFrom(rows, code, 0)
  }

  /** The ledger after marking `code` used; `None` when no unused row holds it. */
  function MarkUsed(rows: seq<Row>, code: string): Option<seq<Row>>
  {
    match FirstUnused(rows, code)
    case None => None
    case Some(k) => Some(rows[k := rows[k].(used := true)])
  }

  /** Marking used fails exactly when no unused row holds the code; otherwise it
      sets the flag of the first such row and changes nothing else. */
  lemma MarkUsedFlipsFirst(rows: seq<Row>, code: string)
    ensures MarkUsed(rows, code).None? <==> forall k :: 0 <= k < |rows| ==> !UnusedWithCode(rows[k], code)
    ensures MarkUsed(rows, code).Some? ==>
              var after := MarkUsed(rows, code).value;
              exists t ::
                && 0 <= t < |rows| && UnusedWithCode(rows[t], code)
                && (forall k :: 0 <= k < t ==> !UnusedWithCode(rows[k], code))
                && after == rows[t := rows[t].(used := true)]
  {
  }

  /** No flag is ever cleared, and exactly one flag is set. */
  lemma MarkUsedMonotone(rows: seq<Row>, code: string)
    requires MarkUsed(rows, code).Some?
    ensures var after := MarkUsed(rows, code).value;
            && |after| == |rows|
            && (forall k :: 0 <= k < |rows| && rows[k].used ==> after[k].used)
            && |set k | 0 <= k < |rows| && after[k] != rows[k]| == 1
  {
    var after := MarkUsed(rows, code).value;
    var t := FirstUnused(rows, code).value;
    assert (set k | 0 <= k < |rows| && after[k] != rows[k]) == {t};
  }

  /** Marking the same code again moves on to its next unused row. */
  lemma {:induction false} MarkUsedAgain(rows: seq<Row>, code: string)
    requires MarkUsed(rows, code).Some?
    ensures var after := MarkUsed(rows, code).value;
            var first := FirstUnused(rows, code).value;
            match FirstUnused(after, code)
            case None => forall k :: first < k < |rows| ==> !UnusedWithCode(rows[k], code)
            case Some(next) => first < next && FirstUnusedFrom(rows, code, first + 1) == Some(next)
  {
    var after := MarkUsed(rows, code).value;
    var first := FirstUnused(rows, code).value;
    FirstUnusedShifted(rows, after, code, first);
  }

  lemma {:induction false} FirstUnusedShifted(rows: seq<Row>, after: seq<Row>, code: string, first: nat)
    requires first < |rows| && UnusedWithCode(rows[first], code)
    requires forall k :: 0 <= k < first ==> !UnusedWithCode(rows[k], code)
    requires after == rows[first := rows[first].(used := true)]
    ensures FirstUnused(after, code) == FirstUnusedFrom(rows, code, first + 1)
  {
    FirstUnusedFromSame(rows, after, code, first + 1);
    FirstUnusedSkip(after, code, 0, first + 1);
  }

  lemma {:induction false} FirstUnusedFromSame(rows: seq<Row>, after: seq<Row>, code: string, i: nat)
    requires i <= |rows| == |after|
    requires forall k :: i <= k < |rows| ==> rows[k] == after[k]
    ensures FirstUnusedFrom(rows, code, i) == FirstUnusedFrom(after, code, i)
    decreases |rows| - i
  {
    if i < |rows| {
      FirstUnusedFromSame(rows, after, code, i + 1);
    }
  }

  lemma {:induction false} FirstUnusedSkip(rows: seq<Row>, code: string, i: nat, j: nat)
    requires i <= j <= |rows|
    requires forall k :: i <= k < j ==> !UnusedWithCode(rows[k], code)
    ensures FirstUnusedFrom(rows, code, i) == FirstUnusedFrom(rows, code, j)
    decreases j - i
  {
    if i < j {
      FirstUnusedSkip(rows, code, i + 1, j);
    }
  }
}
