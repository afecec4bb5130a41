/**
 The one-shot script: query the store once, format the count with this
 script's two-line click hint, and print exactly one record.
 */
module SignalUnread {
  import opened Decimal
  import opened Status
  import opened StoreReader

  const ClickHelp: string := "\n\nLeft-click: Focus/Open Signal\nRight-click: Focus/Open Signal"

  /** This script's record for `count`: the shared layout with its own hint. */
  function FormatOutput(count: nat): (r: StatusRecord)
    ensures r.cssClass == ClassRead <==> count == 0
    ensures r.tooltip == Summary(count) + ClickHelp
  {
    Format(count, ClickHelp)
  }

  /** One run of the script: the lines it prints. */
  method Run(store: Store) returns (printed: seq<StatusRecord>)
    ensures |printed| == 1
    ensures printed[0] == FormatOutput(GetUnreadCount(store))
  {
    var count := GetUnreadCount(store);
    var output := FormatOutput(count);
    printed := [output];
  }

  /** What the single printed record shows, by the state of the store: a
      missing database or a failing query reads as "no unread messages", and
      a large backlog is shown as the cap. */
  lemma RunShowsSafeCount(store: Store)
    ensures var r := FormatOutput(GetUnreadCount(store));
            && (!store.dbExists || store.query.Raised? ==>
                  r.cssClass == ClassRead && r.text == IconDefault)
            && (store.dbExists && store.query.Rows? ==>
                  CountOf(r) == Some(if store.query.count < MaxCountDisplay then store.query.count else MaxCountDisplay))
  {
    FormatCountOf(GetUnreadCount(store), ClickHelp);
    if store.dbExists && store.query.Rows? {
      ClampExact(store.query.count);
    }
  }

  /** 150 matching rows are shown as "99", with the plural tooltip. */
  lemma BacklogShownAsCap()
    ensures FormatOutput(GetUnreadCount(Store(true, Rows(150)))).text == IconUnread + " " + "99"
    ensures FormatOutput(GetUnreadCount(Store(true, Rows(150)))).tooltip
            == "99" + " unread messages in Signal" + ClickHelp
  {
    assert GetUnreadCount(Store(true, Rows(150))) == 99;
    assert ToDecimal(99) == ToDecimal(9) + [DigitChar(9)];
    assert ToDecimal(99) == "99";
    SummaryWording(99);
  }
}
