/**
 The status-bar record both scripts print: a short `text`, a CSS class and a
 tooltip. The two scripts format it the same way and differ only in the
 click hint appended to the tooltip, so the formatter takes that hint as a
 parameter.
 */
module Status {
  import opened Decimal

  /** One line of the widget's output. The JSON key of `cssClass` is "class". */
  datatype StatusRecord = StatusRecord(text: string, cssClass: string, tooltip: string)

  // U+1F5E8 LEFT SPEECH BUBBLE followed by U+FE0F VARIATION SELECTOR-16.
  const IconDefault: string := "\U{1F5E8}\U{FE0F}"
  const IconUnread: string := "\U{1F5E8}\U{FE0F}"

  const ClassRead: string := "signal-read"
  const ClassUnread: string := "signal-unread"

  const NoUnreadTooltip: string := "No unread messages in Signal"

  /** "message" or "messages", chosen by the count. */
  function Noun(count: nat): (s: string)
    ensures s == "message" <==> count == 1
  {
    "message" + (if count != 1 then "s" else "")
  }

  /** The tooltip's first line: how many messages are unread. */
  function Summary(count: nat): string {
    if count == 0 then NoUnreadTooltip else ToDecimal(count) + " unread " + Noun(count) + " in Signal"
  }

  lemma SummaryOne()
    ensures Summary(1) == "1 unread message in Signal"
  {
    assert ToDecimal(1) == "1";
    assert Noun(1) == "message";
    assert "1" + " unread " + "message" + " in Signal" == "1 unread message in Signal";
  }

  lemma SummaryMany(count: nat)
    requires count > 1
    ensures Summary(count) == ToDecimal(count) + " unread messages in Signal"
  {
    var d := ToDecimal(count);
    assert Noun(count) == "messages";
    assert " unread " + "messages" + " in Signal" == " unread messages in Signal";
    assert d + " unread " + "messages" + " in Signal" == d + (" unread " + "messages" + " in Signal");
  }

  /** The wording of the first tooltip line: the singular noun for one
      message, the plural one for none and for more than one. */
  lemma SummaryWording(count: nat)
    ensures count == 0 ==> Summary(count) == "No unread messages in Signal"
    ensures count == 1 ==> Summary(count) == "1 unread message in Signal"
    ensures count > 1 ==> Summary(count) == ToDecimal(count) + " unread messages in Signal"
  {
    if count == 1 {
      SummaryOne();
    } else if count > 1 {
      SummaryMany(count);
    }
  }

  /** The record shown for `count` unread messages; `clickHelp` ends every tooltip. */
  function Format(count: nat, clickHelp: string): (r: StatusRecord)
    ensures r.cssClass == ClassRead <==> count == 0
    ensures r.cssClass == ClassUnread <==> count >= 1
    ensures count == 0 ==> r.text == IconDefault
    ensures count == 1 ==> r.text == IconUnread
    ensures count > 1 ==> r.text == IconUnread + " " + ToDecimal(count)
    ensures r.tooltip == Summary(count) + clickHelp
  {
    var text := if count == 0 then IconDefault else if count > 1 then IconUnread + " " + ToDecimal(count) else IconUnread;
    var cssClass := if count == 0 then ClassRead else ClassUnread;
    StatusRecord(text, cssClass, Summary(count) + clickHelp)
  }

  /** Every tooltip ends with the click hint. */
  lemma TooltipEndsWithHint(count: nat, clickHelp: string)
    ensures |Format(count, clickHelp).tooltip| >= |clickHelp|
    ensures Format(count, clickHelp).tooltip[|Format(count, clickHelp).tooltip| - |clickHelp|..] == clickHelp
  {
    var t := Format(count, clickHelp).tooltip;
    assert t == Summary(count) + clickHelp;
    assert t[|Summary(count)|..] == clickHelp;
  }

  /** The count a record displays, read back from its class and text. */
  function CountOf(r: StatusRecord): (c: Option<nat>)
    ensures c.Some? ==> r.cssClass in {ClassRead, ClassUnread}
  {
    var prefix := IconUnread + " ";
    if r.cssClass == ClassRead then
      if r.text == IconDefault then Some(0) else None
    else if r.cssClass == ClassUnread then
      if r.text == IconUnread then Some(1)
      else if |r.text| > |prefix| && r.text[..|prefix|] == prefix then
        match ParseDecimal(r.text[|prefix|..])
        case Some(n) => if n > 1 then Some(n) else None
        case None => None
      else None
    else None
  }

  /** Every count can be read back from the record it is formatted into. */
  lemma FormatCountOf(count: nat, clickHelp: string)
    ensures CountOf(Format(count, clickHelp)) == Some(count)
  {
    if count > 1 {
      var r := Format(count, clickHelp);
      var prefix := IconUnread + " ";
      assert r.text[..|prefix|] == prefix;
      assert r.text[|prefix|..] == ToDecimal(count);
      ParseToDecimal(count);
    }
  }

  /** Different counts never produce the same record. */
  lemma FormatInjective(m: nat, n: nat, clickHelp: string)
    requires Format(m, clickHelp) == Format(n, clickHelp)
    ensures m == n
  {
    FormatCountOf(m, clickHelp);
    FormatCountOf(n, clickHelp);
  }

  /** The text shows a digit exactly when more than one message is unread. */
  lemma TextHasDigitIff(count: nat, clickHelp: string)
    ensures (exists i :: 0 <= i < |Format(count, clickHelp).text| && IsDigit(Format(count, clickHelp).text[i]))
            <==> count > 1
  {
    var t := Format(count, clickHelp).text;
    if count > 1 {
      var k := |IconUnread + " "|;
      assert t[k] == ToDecimal(count)[0];
      assert IsDigit(t[k]);
    } else {
      assert t == IconUnread;
      assert forall i :: 0 <= i < |t| ==> !IsDigit(t[i]);
    }
  }
}
