/** The LINE bot over the ledger: the allow-list check, the dispatch of
    message and postback events on their state tag, the replies it builds,
    the used-flag update, and the per-request loop of doPost. A reply is its
    text and the postback choices it offers, each a state tag with an
    optional code. */
module Bot {
  import opened Ledger
  import opened Ingest

  datatype Choice = Choice(state: string, code: Option<string>)

  datatype Reply = Reply(text: string, choices: seq<Choice>)

  const Rebuff := "あなたは誰？"
  const NotFound := "対象のコードがありませんでした"
  const AskUsed := "使用済みにしますか？"
  const TopPrompt := "メニューを選んでください"
  const PromoPrompt := "どのコードを取得しますか？"
  const UnlimitedPrompt := "無制限のコードは24H使い放題ですが、貴重です。本当に使いますか？"
  const Cancelled := "操作をキャンセルしました"
  const MarkedSuffix := "を使用済みにしました"

  /** The state tags the postback handler recognises. */
  const States: seq<string> := [
    "ROOT", "PROMOCODE", "300MB", "1GB", "3GB", "7GB", "20GB",
    "UNLIMITED", "UNLIMITED_CHECK", "COUNT", "USED_FLAG", "CANCEL"
  ]

  function Offer(state: string): Choice
  {
    Choice(state, None)
  }

  /** generateQuickReplyTopMessage. */
  const TopMenu := Reply(TopPrompt, [Offer("PROMOCODE"), Offer("300MB"), Offer("COUNT"), Offer("CANCEL")])

  /** generateQuickReplyForGetPromoCode. */
  const PromoMenu := Reply(PromoPrompt, [
    Offer("300MB"), Offer("1GB"), Offer("3GB"), Offer("7GB"), Offer("20GB"),
    Offer("UNLIMITED_CHECK"), Offer("CANCEL")
  ])

  /** generateQuickReplyForGetUnlimitedPromoCode. */
  const UnlimitedMenu := Reply(UnlimitedPrompt, [Offer("UNLIMITED"), Offer("CANCEL")])

  /** The amount prefixes the bot can ask the ledger for. */
  const FetchPrefixes: seq<string> := ["300MB", "1GB", "3GB", "7GB", "20GB", "無制限"]

  // ---------------------------------------------------------------------
  // generateMessagesToPostbackEvent: the table of state tags.

  datatype Action =
    | ShowTop
    | ShowPromoMenu
    | Fetch(prefix: string)
    | ConfirmUnlimited
    | Count
    | MarkCode
    | Cancel
    | Ignore

  /** What a postback's `state` selects; an absent or unknown tag selects nothing. */
  function PostbackAction(state: Option<string>): (a: Action)
    ensures a.Ignore? <==> state.None? || state.value !in States
    ensures a.Fetch? ==> a.prefix in FetchPrefixes
    ensures a.Fetch? && a.prefix != "無制限" ==> state == Some(a.prefix)
  {
    match state
    case None => Ignore
    case Some(s) =>
      if s == "ROOT" then ShowTop
      else if s == "PROMOCODE" then ShowPromoMenu
      else if s == "300MB" then Fetch("300MB")
      else if s == "1GB" then Fetch("1GB")
      else if s == "3GB" then Fetch("3GB")
      else if s == "7GB" then Fetch("7GB")
      else if s == "20GB" then Fetch("20GB")
      else if s == "UNLIMITED" then Fetch("無制限")
      else if s == "UNLIMITED_CHECK" then ConfirmUnlimited
      else if s == "COUNT" then Count
      else if s == "USED_FLAG" then MarkCode
      else if s == "CANCEL" then Cancel
      else Ignore
  }

  /** generateQuickReplyForGetSpecifyPromoCode: the code for the prefix and
      the offer to mark it used, or the not-found text alone. An empty code
      counts as none found, as `promoCode || ...` treats it. */
  function SpecifyCodeReply(rows: seq<Row>, prefix: string): (r: seq<Reply>)
    ensures |r| == 1 || |r| == 2
    ensures |r| == 1 ==> r == [Reply(NotFound, [])]
    ensures (forall k :: 0 <= k < |rows| ==> !Candidate(rows[k], prefix)) ==> |r| == 1
    ensures && (exists k :: 0 <= k < |rows| && Candidate(rows[k], prefix))
            && (forall k :: 0 <= k < |rows| && Candidate(rows[k], prefix) ==> rows[k].code != "")
            ==> |r| == 2
    ensures |r| == 2 ==>
              exists k: nat ::
                && IsEarliestCandidate(rows, prefix, k)
                && r[0] == Reply(rows[k].code, [])
                && r[1] == Reply(AskUsed, [Choice("USED_FLAG", Some(rows[k].code)), Offer("CANCEL")])
  {
    var code := ReturnPromoCode(rows, prefix);
    if code == "" then [Reply(NotFound, [])]
    else [Reply(code, []), Reply(AskUsed, [Choice("USED_FLAG", Some(code)), Offer("CANCEL")])]
  }

  /** The parsed postback data; its fields are absent when the JSON lacks them. */
  datatype PostbackData = PostbackData(state: Option<string>, code: Option<string>)

  /** The result of handling one event: the replies and the ledger after it,
      or an exception, which ends the request. */
  datatype Outcome = Replied(messages: seq<Reply>, rows: seq<Row>) | Faulted

  /** The postback handler on values. USED_FLAG without a code, or with a
      code no unused row holds, reaches `getRange(0, ...)`, which throws. */
  function PostbackOutcome(rows: seq<Row>, data: PostbackData): Outcome
  {
    match PostbackAction(data.state)
    case ShowTop => Replied([TopMenu], rows)
    case ShowPromoMenu => Replied([PromoMenu], rows)
    case Fetch(prefix) => Replied(SpecifyCodeReply(rows, prefix), rows)
    case ConfirmUnlimited => Replied([UnlimitedMenu], rows)
    case Count => Replied([Reply(PromoCodeList(rows), [])], rows)
    case MarkCode =>
      if data.code.None? then Faulted
      else
        (match MarkUsed(rows, data.code.value)
         case None => Faulted
         case Some(after) => Replied([Reply(data.code.value + MarkedSuffix, [])], after))
    case Cancel => Replied([Reply(Cancelled, [])], rows)
    case Ignore => Replied([], rows)
  }

  /** A webhook event: its sender, reply token, type and, for a postback,
      the parsed data (`None` when the data is missing or not JSON). */
  datatype Event = Event(userId: string, replyToken: string, typeName: string, postback: Option<PostbackData>)

  /** generateReplyMessagesToEvent on values. */
  function EventReply(rows: seq<Row>, e: Event): Outcome
  {
    if e.typeName == "message" then Replied([TopMenu], rows)
    else if e.typeName == "postback" then
      if e.postback.None? then Faulted else PostbackOutcome(rows, e.postback.value)
    else Replied([], rows)
  }

  /** One pass of the doPost loop: the allow-list is checked first. */
  function EventOutcome(rows: seq<Row>, users: seq<string>, e: Event): Outcome
  {
    if e.userId in users then EventReply(rows, e) else Replied([Reply(Rebuff, [])], rows)
  }

  /** What a request has done: the replies sent, with their reply tokens,
      the ledger, and whether an exception ended it. */
  datatype Run = Run(sent: seq<(string, seq<Reply>)>, rows: seq<Row>, faulted: bool)

  /** doPost on values: events in order, a reply only when there are
      messages, nothing more after an exception. */
  function Batch(rows: seq<Row>, users: seq<string>, events: seq<Event>): Run
  {
    if events == [] then Run([], rows, false)
    else
      var r := Batch(rows, users, events[..|events| - 1]);
      var e := events[|events| - 1];
      if r.faulted then r
      else
        match EventOutcome(r.rows, users, e)
        case Faulted => Run(r.sent, r.rows, true)
        case Replied(messages, after) =>
          Run(if messages == [] then r.sent else r.sent + [(e.replyToken, messages)], after, false)
  }

  // ---------------------------------------------------------------------
  // Properties of the dispatch.

  /** Every choice a menu or a found-code reply offers is a tag the handler
      acts on. */
  lemma MenusOfferKnownStates(code: string)
    ensures var offered := TopMenu.choices + PromoMenu.choices + UnlimitedMenu.choices
                           + [Choice("USED_FLAG", Some(code)), Offer("CANCEL")];
            forall i :: 0 <= i < |offered| ==>
              offered[i].state in States && !PostbackAction(Some(offered[i].state)).Ignore?
  {
  }

  /** A ledger whose every amount is its code's classifier label, as ingestion writes it. */
  predicate Classified(rows: seq<Row>)
  {
    forall k :: 0 <= k < |rows| ==> rows[k].amount == CodeAmount(rows[k].code)
  }

  /** The 7GB button can never find a code in a ledger ingestion wrote. */
  lemma SevenGigNeverFound(rows: seq<Row>)
    requires Classified(rows)
    ensures SpecifyCodeReply(rows, "7GB") == [Reply(NotFound, [])]
  {
    forall k | 0 <= k < |rows|
      ensures !Candidate(rows[k], "7GB")
    {
      NoSevenGigLabel(rows[k].code);
    }
  }

  lemma BatchStep(rows: seq<Row>, users: seq<string>, events: seq<Event>, i: nat)
    requires i < |events|
    ensures Batch(rows, users, events[..i + 1]) ==
            var r := Batch(rows, users, events[..i]);
            if r.faulted then r
            else
              match EventOutcome(r.rows, users, events[i])
              case Faulted => Run(r.sent, r.rows, true)
              case Replied(messages, after) =>
                Run(if messages == [] then r.sent else r.sent + [(events[i].replyToken, messages)], after, false)
  {
    assert events[..i + 1][..i] == events[..i];
  }

  /** After an exception the request does nothing more. */
  lemma {:induction false} BatchStopsAtFault(rows: seq<Row>, users: seq<string>, events: seq<Event>, i: nat)
    requires i <= |events| && Batch(rows, users, events[..i]).faulted
    ensures Batch(rows, users, events) == Batch(rows, users, events[..i])
    decreases |events| - i
  {
    if i < |events| {
      BatchStep(rows, users, events, i);
      BatchStopsAtFault(rows, users, events, i + 1);
    } else {
      assert events[..i] == events;
    }
  }

  predicate AllNonEmpty(sent: seq<(string, seq<Reply>)>)
  {
    forall i :: 0 <= i < |sent| ==> sent[i].1 != []
  }

  /** Every reply sent carries at least one message. */
  lemma {:induction false} BatchSendsNonEmpty(rows: seq<Row>, users: seq<string>, events: seq<Event>)
    ensures AllNonEmpty(Batch(rows, users, events).sent)
  {
    if events != [] {
      BatchSendsNonEmpty(rows, users, events[..|events| - 1]);
    }
  }

  /** A request where no sender is on the allow-list answers every event
      with the rebuff alone and leaves the ledger as it was. */
  lemma {:induction false} StrangersRebuffed(rows: seq<Row>, users: seq<string>, events: seq<Event>)
    requires forall i :: 0 <= i < |events| ==> events[i].userId !in users
    ensures Batch(rows, users, events) ==
            Run(seq(|events|, i requires 0 <= i < |events| => (events[i].replyToken, [Reply(Rebuff, [])])), rows, false)
  {
    if events != [] {
      var init := events[..|events| - 1];
      StrangersRebuffed(rows, users, init);
      var s := seq(|init|, i requires 0 <= i < |init| => (init[i].replyToken, [Reply(Rebuff, [])]));
      var t := seq(|events|, i requires 0 <= i < |events| => (events[i].replyToken, [Reply(Rebuff, [])]));
      assert t == s + [(events[|events| - 1].replyToken, [Reply(Rebuff, [])])];
    }
  }

  /** An event from a known user that is neither a message nor a postback,
      or a postback with an unknown tag, sends nothing and changes nothing. */
  lemma SilentEvent(rows: seq<Row>, users: seq<string>, events: seq<Event>, e: Event)
    requires e.userId in users
    requires e.typeName != "message"
    requires e.typeName == "postback" ==>
               e.postback.Some? && (e.postback.value.state.None? || e.postback.value.state.value !in States)
    ensures Batch(rows, users, events + [e]) == Batch(rows, users, events)
  {
    assert (events + [e])[..|events|] == events;
  }

  /** `after` is `before` with some used flags set: no row is added, removed
      or otherwise altered, and no flag is cleared. */
  predicate OnlyFlagsSet(before: seq<Row>, after: seq<Row>)
  {
    && |after| == |before|
    && forall k :: 0 <= k < |before| ==> after[k] == before[k].(used := after[k].used) && (before[k].used ==> after[k].used)
  }

  lemma OnlyFlagsSetSame(rows: seq<Row>)
    ensures OnlyFlagsSet(rows, rows)
  {
    forall k | 0 <= k < |rows|
      ensures rows[k] == rows[k].(used := rows[k].used)
    {
    }
  }

  /** Only marking a code touches the ledger. */
  lemma PostbackKeepsRows(rows: seq<Row>, data: PostbackData)
    requires !PostbackAction(data.state).MarkCode?
    ensures PostbackOutcome(rows, data).Replied? && PostbackOutcome(rows, data).rows == rows
  {
  }

  /** One event changes the ledger only by setting used flags. */
  lemma EventOnlySetsFlags(rows: seq<Row>, users: seq<string>, e: Event)
    ensures EventOutcome(rows, users, e).Replied? ==> OnlyFlagsSet(rows, EventOutcome(rows, users, e).rows)
  {
    var o := EventOutcome(rows, users, e);
    if e.userId in users && e.typeName == "postback" && e.postback.Some? {
      var data := e.postback.value;
      if !PostbackAction(data.state).MarkCode? {
        PostbackKeepsRows(rows, data);
        OnlyFlagsSetSame(rows);
      } else if data.code.Some? && MarkUsed(rows, data.code.value).Some? {
        MarkUsedMonotone(rows, data.code.value);
      }
    } else if o.Replied? {
      assert o.rows == rows;
      OnlyFlagsSetSame(rows);
    }
  }

  /** A request changes the ledger only by setting used flags. */
  lemma {:induction false} BatchOnlySetsFlags(rows: seq<Row>, users: seq<string>, events: seq<Event>)
    ensures OnlyFlagsSet(rows, Batch(rows, users, events).rows)
  {
    if events != [] {
      var init := events[..|events| - 1];
      BatchOnlySetsFlags(rows, users, init);
      var r := Batch(rows, users, init);
      if !r.faulted {
        EventOnlySetsFlags(r.rows, users, events[|events| - 1]);
      }
    }
  }

  // ---------------------------------------------------------------------
  // The sheet-scanning helpers and the handlers, as the source runs them.

  /** isKnownUser: a scan of column 1 of the user sheet. */
  method IsKnownUser(users: seq<string>, userId: string) returns (known: bool)
    ensures known <==> userId in users
  {
    var i := 0;
    while i < |users|
      invariant 0 <= i <= |users|
      invariant userId !in users[..i]
    {
      if users[i] == userId {
        return true;
      }
      assert users[..i + 1] == users[..i] + [users[i]];
      i := i + 1;
    }
    assert users[..i] == users;
    return false;
  }

  /** findUpdateTargetRow: the sheet row number of the first unused row that
      holds `code`, or 0. Row 1 holds the headers; its flag cell is text and
      never `false`, so the scan effectively starts at row 2. */
  method FindUpdateTargetRow(sheet: Sheet, code: string) returns (row: nat)
    ensures row == 0 ==> forall k :: 0 <= k < |sheet.rows| ==> !UnusedWithCode(sheet.rows[k], code)
    ensures row != 0 ==>
              && 2 <= row < |sheet.rows| + 2 && UnusedWithCode(sheet.rows[row - 2], code)
              && forall k :: 0 <= k < row - 2 ==> !UnusedWithCode(sheet.rows[k], code)
    ensures row == match FirstUnused(sheet.rows, code) case None => 0 case Some(k) => k + 2
  {
    var k := 0;
    while k < |sheet.rows|
      invariant 0 <= k <= |sheet.rows|
      invariant forall j :: 0 <= j < k ==> !UnusedWithCode(sheet.rows[j], code)
      invariant FirstUnused(sheet.rows, code) == FirstUnusedFrom(sheet.rows, code, k)
    {
      if sheet.rows[k].code == code && sheet.rows[k].used == false {
        return k + 2;
      }
      k := k + 1;
    }
    return 0;
  }

  /** updateUsedFlagTrue: sets the flag of the row findUpdateTargetRow
      returns. `found` is false when that row is 0, where `getRange` throws
      and nothing is written. */
  method UpdateUsedFlagTrue(sheet: Sheet, code: string) returns (found: bool)
    modifies sheet
    ensures found <==> MarkUsed(old(sheet.rows), code).Some?
    ensures found ==> sheet.rows == MarkUsed(old(sheet.rows), code).value
    ensures !found ==> sheet.rows == old(sheet.rows)
  {
    var target := FindUpdateTargetRow(sheet, code);
    if target == 0 {
      return false;
    }
    var r := target - 2;
    sheet.WriteRow(r, sheet.rows[r].(used := true));
    return true;
  }

  /** generateMessagesToPostbackEvent, on the sheet. */
  method GenerateMessagesToPostbackEvent(sheet: Sheet, data: PostbackData) returns (messages: seq<Reply>, fault: bool)
    modifies sheet
    ensures fault ==> PostbackOutcome(old(sheet.rows), data).Faulted? && sheet.rows == old(sheet.rows)
    ensures !fault ==> PostbackOutcome(old(sheet.rows), data) == Replied(messages, sheet.rows)
  {
    messages, fault := [], false;
    match PostbackAction(data.state)
    case ShowTop =>
      messages := messages + [TopMenu];
    case ShowPromoMenu =>
      messages := messages + [PromoMenu];
    case Fetch(prefix) =>
      messages := messages + SpecifyCodeReply(sheet.rows, prefix);
    case ConfirmUnlimited =>
      messages := messages + [UnlimitedMenu];
    case Count =>
      messages := messages + [Reply(PromoCodeList(sheet.rows), [])];
    case MarkCode =>
      if data.code.None? {
        fault := true;
      } else {
        var found := UpdateUsedFlagTrue(sheet, data.code.value);
        if !found {
          fault := true;
        } else {
          messages := messages + [Reply(data.code.value + MarkedSuffix, [])];
        }
      }
    case Cancel =>
      messages := messages + [Reply(Cancelled, [])];
    case Ignore =>
  }

  /** generateReplyMessagesToEvent, on the sheet. */
  method GenerateReplyMessagesToEvent(sheet: Sheet, e: Event) returns (messages: seq<Reply>, fault: bool)
    modifies sheet
    ensures fault ==> EventReply(old(sheet.rows), e).Faulted? && sheet.rows == old(sheet.rows)
    ensures !fault ==> EventReply(old(sheet.rows), e) == Replied(messages, sheet.rows)
  {
    messages, fault := [], false;
    if e.typeName == "message" {
      messages := messages + [TopMenu];
    } else if e.typeName == "postback" {
      if e.postback.None? {
        fault := true;
      } else {
        var m;
        m, fault := GenerateMessagesToPostbackEvent(sheet, e.postback.value);
        messages := messages + m;
      }
    }
  }

  /** doPost: each event answered in turn; a reply is sent only when there
      are messages; an exception ends the request. `sent` lists the reply
      token and messages of every reply. */
  method DoPost(sheet: Sheet, users: seq<string>, events: seq<Event>)
    returns (sent: seq<(string, seq<Reply>)>, faulted: bool)
    modifies sheet
    ensures Batch(old(sheet.rows), users, events) == Run(sent, sheet.rows, faulted)
  {
    sent, faulted := [], false;
    ghost var init := sheet.rows;
    var i := 0;
    while i < |events|
      invariant 0 <= i <= |events|
      invariant Batch(init, users, events[..i]) == Run(sent, sheet.rows, false)
    {
      var event := events[i];
      BatchStep(init, users, events, i);
      ghost var before := sheet.rows;
      var messages: seq<Reply> := [];
      var known := IsKnownUser(users, event.userId);
      if known {
        var m, fault := GenerateReplyMessagesToEvent(sheet, event);
        if fault {
          faulted := true;
          BatchStopsAtFault(init, users, events, i + 1);
          return;
        }
        messages := messages + m;
        assert messages == m;
      } else {
        messages := messages + [Reply(Rebuff, [])];
      }
      assert EventOutcome(before, users, event) == Replied(messages, sheet.rows);
      if |messages| > 0 {
        sent := sent + [(event.replyToken, messages)];
      }
      i := i + 1;
    }
    assert events[..i] == events;
  }
}
