/** The expiry watch: the unused codes whose limit date falls within seven
    days of the run, and the text of the notice that lists them. Dates are
    day numbers; `today` is the day of the run, taken once per run, as the
    script computes its cut-off when it loads. */
module Expiry {
  import opened Text
  import opened Ledger

  /** LIMIT_DATE_COUNT: days of warning. */
  const LimitDateCount := 7

  /** A row the watch reports. A limit date at midnight of day `d` is at or
      before the cut-off instant `today + 7` days (at the run's time of day)
      exactly when `d <= today + 7`. */
  predicate Expiring(r: Row, today: int)
  {
    r.limitDate.Some? && r.limitDate.value <= today + LimitDateCount && !r.used
  }

  /** Every data row has a limit date; a blank cell has no `getTime`. */
  predicate AllDated(rows: seq<Row>)
  {
    forall k :: 0 <= k < |rows| ==> rows[k].limitDate.Some?
  }

  /** The positions of the reported rows, in sheet order. */
  function Selected(rows: seq<Row>, today: int): (ks: seq<nat>)
    ensures forall i :: 0 <= i < |ks| ==> ks[i] < |rows| && Expiring(rows[ks[i]], today)
    ensures forall i, j :: 0 <= i < j < |ks| ==> ks[i] < ks[j]
    ensures forall k :: 0 <= k < |rows| && Expiring(rows[k], today) ==> k in ks
  {
    if rows == [] then []
    else
      var init := rows[..|rows| - 1];
      var ks := Selected(init, today);
      assert forall k :: 0 <= k < |init| ==> init[k] == rows[k];
      if Expiring(rows[|rows| - 1], today) then ks + [|rows| - 1] else ks
  }

  /** The `[date text, code]` pairs of the reported rows. */
  function Pairs(rows: seq<Row>, ks: seq<nat>, format: int -> string): (p: seq<(string, string)>)
    requires forall i :: 0 <= i < |ks| ==> ks[i] < |rows| && rows[ks[i]].limitDate.Some?
    ensures |p| == |ks|
    ensures forall i :: 0 <= i < |p| ==> p[i] == (format(rows[ks[i]].limitDate.value), rows[ks[i]].code)
  {
    if ks == [] then []
    else Pairs(rows, ks[..|ks| - 1], format) + [(format(rows[ks[|ks| - 1]].limitDate.value), rows[ks[|ks| - 1]].code)]
  }

  /** The pairs notifyLimitDate collects, row by row in sheet order. */
  function Report(rows: seq<Row>, today: int, format: int -> string): seq<(string, string)>
  {
    if rows == [] then []
    else
      var last := rows[|rows| - 1];
      Report(rows[..|rows| - 1], today, format)
      + (if Expiring(last, today) then [(format(last.limitDate.value), last.code)] else [])
  }

  lemma ReportStep(rows: seq<Row>, k: nat, today: int, format: int -> string)
    requires k < |rows|
    ensures Report(rows[..k + 1], today, format) ==
            Report(rows[..k], today, format)
            + (if Expiring(rows[k], today) then [(format(rows[k].limitDate.value), rows[k].code)] else [])
  {
    assert rows[..k + 1][..k] == rows[..k];
  }

  /** The collected pairs are those of exactly the reported rows, in sheet order. */
  lemma {:induction false} ReportIsSelected(rows: seq<Row>, today: int, format: int -> string)
    ensures Report(rows, today, format) == Pairs(rows, Selected(rows, today), format)
  {
    if rows != [] {
      var init := rows[..|rows| - 1];
      ReportIsSelected(init, today, format);
      var ks := Selected(init, today);
      assert forall i :: 0 <= i < |init| ==> init[i] == rows[i];
      PairsPrefix(init, rows, ks, format);
      if Expiring(rows[|rows| - 1], today) {
        PairsStep(rows, ks, |rows| - 1, format);
      }
    }
  }

  /** Pairs of positions inside a prefix read the same from the whole. */
  lemma PairsPrefix(init: seq<Row>, rows: seq<Row>, ks: seq<nat>, format: int -> string)
    requires |init| <= |rows| && forall i :: 0 <= i < |init| ==> init[i] == rows[i]
    requires forall i :: 0 <= i < |ks| ==> ks[i] < |init| && init[ks[i]].limitDate.Some?
    ensures Pairs(init, ks, format) == Pairs(rows, ks, format)
  {
  }

  /** Nothing is reported exactly when no row is expiring. */
  lemma {:induction false} ReportEmpty(rows: seq<Row>, today: int, format: int -> string)
    ensures Report(rows, today, format) == [] <==> forall k :: 0 <= k < |rows| ==> !Expiring(rows[k], today)
  {
    if rows != [] {
      var init := rows[..|rows| - 1];
      ReportEmpty(init, today, format);
      assert forall i :: 0 <= i < |init| ==> init[i] == rows[i];
    }
  }

  lemma PairsStep(rows: seq<Row>, ks: seq<nat>, k: nat, format: int -> string)
    requires forall i :: 0 <= i < |ks| ==> ks[i] < |rows| && rows[ks[i]].limitDate.Some?
    requires k < |rows| && rows[k].limitDate.Some?
    ensures Pairs(rows, ks + [k], format) == Pairs(rows, ks, format) + [(format(rows[k].limitDate.value), rows[k].code)]
  {
    assert (ks + [k])[..|ks|] == ks;
  }

  /** One line of the notice: `date：code`. */
  function EntryLine(p: (string, string)): string
  {
    p.0 + "：" + p.1
  }

  function EntryLines(pairs: seq<(string, string)>): (lines: seq<string>)
    ensures |lines| == |pairs|
    ensures forall i :: 0 <= i < |lines| ==> lines[i] == EntryLine(pairs[i])
  {
    if pairs == [] then [] else [EntryLine(pairs[0])] + EntryLines(pairs[1..])
  }

  const Warning := "⚠" + "有効期限が" + Decimal(LimitDateCount) + "日以内のものがあります"
  const ListHeading := "■期限日：対象コード"

  /** The text sendLINE posts. No line break separates the heading from the
      first entry. */
  function NoticeText(lines: seq<string>): string
  {
    "\n" + Warning + "\n\n" + ListHeading + Join(lines, "\n")
  }

  /** What a run of notifyLimitDate does. */
  datatype Notice = Thrown | Quiet | Sent(text: string)

  // ---------------------------------------------------------------------
  // The script as it runs.

  /** sendLINE, up to the request it posts. */
  method SendLine(limitList: seq<(string, string)>) returns (messageText: string)
    ensures messageText == NoticeText(EntryLines(limitList))
  {
    var limitMessageTemp: seq<string> := [];
    var i := 0;
    while i < |limitList|
      invariant 0 <= i <= |limitList|
      invariant limitMessageTemp == EntryLines(limitList[..i])
    {
      EntryLinesStep(limitList, i);
      limitMessageTemp := limitMessageTemp + [limitList[i].0 + "：" + limitList[i].1];
      i := i + 1;
    }
    assert limitList[..i] == limitList;
    messageText := "\n" + Warning;
    messageText := messageText + "\n\n";
    messageText := messageText + ListHeading;
    messageText := messageText + Join(limitMessageTemp, "\n");
  }

  lemma EntryLinesStep(pairs: seq<(string, string)>, i: nat)
    requires i < |pairs|
    ensures EntryLines(pairs[..i + 1]) == EntryLines(pairs[..i]) + [EntryLine(pairs[i])]
  {
    var a, b := EntryLines(pairs[..i + 1]), EntryLines(pairs[..i]) + [EntryLine(pairs[i])];
    assert |a| == |b|;
    forall j | 0 <= j < |a|
      ensures a[j] == b[j]
    {
    }
  }

  /** notifyLimitDate: `Thrown` when the sheet has no data row (a range of
      zero rows) or a limit date is blank; otherwise a notice exactly when
      some row is reported. Every row is examined: the `some` callback never
      returns true. */
  method NotifyLimitDate(sheet: Sheet, today: int, format: int -> string) returns (notice: Notice)
    ensures notice.Thrown? <==> |sheet.rows| == 0 || !AllDated(sheet.rows)
    ensures notice.Sent? <==>
              && |sheet.rows| > 0 && AllDated(sheet.rows)
              && exists k :: 0 <= k < |sheet.rows| && Expiring(sheet.rows[k], today)
    ensures notice.Sent? ==> notice.text == NoticeText(EntryLines(Report(sheet.rows, today, format)))
  {
    var data := sheet.rows;
    if |data| == 0 {
      return Thrown;
    }
    var limitList: seq<(string, string)> := [];
    var k := 0;
    while k < |data|
      invariant 0 <= k <= |data|
      invariant AllDated(data[..k])
      invariant limitList == Report(data[..k], today, format)
    {
      var value := data[k];
      if value.limitDate.None? {
        assert !AllDated(data);
        return Thrown;
      }
      ReportStep(data, k, today, format);
      assert data[..k + 1][..k] == data[..k];
      if value.limitDate.value <= today + LimitDateCount && !value.used {
        limitList := limitList + [(format(value.limitDate.value), value.code)];
      }
      k := k + 1;
    }
    assert data[..k] == data;
    ReportEmpty(data, today, format);
    if |limitList| > 0 {
      var text := SendLine(limitList);
      return Sent(text);
    }
    return Quiet;
  }

  // ---------------------------------------------------------------------
  // Properties of the notice.

  lemma JoinCons(first: string, rest: seq<string>, sep: string)
    requires rest != []
    ensures Join([first] + rest, sep) == first + sep + Join(rest, sep)
  {
    assert ([first] + rest)[1..] == rest;
  }

  lemma JoinHead(lines: seq<string>, sep: string)
    requires |lines| >= 1
    ensures Join(lines, sep) == lines[0] + (if |lines| == 1 then "" else sep + Join(lines[1..], sep))
  {
  }

  /** Text put before the first line joins onto that line. */
  lemma JoinPrepend(pre: string, lines: seq<string>, sep: string)
    requires |lines| >= 1
    ensures pre + Join(lines, sep) == Join([pre + lines[0]] + lines[1..], sep)
  {
    var q := [pre + lines[0]] + lines[1..];
    JoinHead(lines, sep);
    JoinHead(q, sep);
    assert q[0] == pre + lines[0];
    assert q[1..] == lines[1..];
  }

  /** Read line by line, the notice is a blank line, the warning, a blank
      line, and then the heading run together with the first entry, followed
      by the other entries one per line. */
  lemma NoticeLines(lines: seq<string>)
    requires |lines| >= 1
    requires forall i :: 0 <= i < |lines| ==> '\n' !in lines[i]
    ensures Split(NoticeText(lines), '\n') == ["", Warning, "", ListHeading + lines[0]] + lines[1..]
  {
    var head := ListHeading + lines[0];
    var q := [head] + lines[1..];
    var q2 := [""] + q;
    var q3 := [Warning] + q2;
    var parts := [""] + q3;
    assert parts == ["", Warning, "", head] + lines[1..];
    JoinPrepend(ListHeading, lines, "\n");
    JoinCons("", q, "\n");
    JoinCons(Warning, q2, "\n");
    JoinCons("", q3, "\n");
    var j := Join(q, "\n");
    assert NoticeText(lines) == "\n" + Warning + "\n\n" + j;
    assert Join(parts, "\n") == "" + "\n" + (Warning + "\n" + ("" + "\n" + j));
    assert NoticeText(lines) == Join(parts, "\n");
    assert forall m :: 0 <= m < |Warning| ==> Warning[m] != '\n';
    assert forall m :: 0 <= m < |ListHeading| ==> ListHeading[m] != '\n';
    assert forall m :: 0 <= m < |lines[0]| ==> lines[0][m] != '\n';
    assert forall m :: 0 <= m < |head| ==> head[m] != '\n';
    forall i | 0 <= i < |parts|
      ensures '\n' !in parts[i]
    {
      if i >= 4 {
        assert parts[i] == lines[i - 3];
      }
    }
    SplitJoin(parts, '\n');
  }
}
