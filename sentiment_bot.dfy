/**
 * The message handler of the sentiment chat bot
 * (SentimentChatbot/bots/echo_bot.py, `EchoBot.on_message_activity` and
 * the configuration check of `_sentiment_line`). One ordered chain of
 * tests on the stripped text picks exactly one reply: attachments and
 * empty text, the explicit `sentiment` command, then help, time, date,
 * farewell and greeting keywords, the malformed and link heuristics, and
 * finally the reversed text.
 *
 * Replies are kinds, not the rendered strings; the Azure Text Analytics
 * call stands behind `SentimentLine(target)`, the clock behind
 * `CurrentTime` and `TodayDate`.
 */
module SentimentBot {
  import opened Wrappers
  import opened PyStr
  import opened BotIntents

  datatype Reply =
    | AttachmentNotice
    | NoText
    | SentimentUsage
    | SentimentLine(target: string)
    | Capabilities
    | CurrentTime
    | TodayDate
    | Goodbye
    | Greeting
    | Malformed
    | LinkNotice
    | Reversed(text: string)

  /** What the turn ends in: a reply sent, or a `RuntimeError` raised to the adapter. */
  datatype Outcome = Send(reply: Reply) | Raise(message: string)

  const NotConfiguredMessage: string :=
    "Azure Text Analytics client is not configured. Set MicrosoftAIServiceEndpoint and MicrosoftAPIKey."

  /** `low == "sentiment" or low.startswith("sentiment ")`. */
  predicate IsSentimentCommand(low: string)
  {
    low == "sentiment" || "sentiment " <= low
  }

  /** `text[len("sentiment"):].strip()`: the original-case text after the command word. */
  function SentimentTarget(text: string): (target: string)
    requires |text| >= 9
    ensures Stripped(target) && |target| <= |text| - 9
    ensures target == [] <==> AllSpace(text[9..])
  {
    Strip(text[9..])
  }

  /** `_sentiment_line`: without a configured client it raises; otherwise Azure scores `target`. */
  function SentimentLineFor(target: string, configured: bool): (o: Outcome)
    ensures o.Raise? <==> !configured
    ensures o.Raise? ==> o.message == NotConfiguredMessage
    ensures o.Send? ==> o.reply == SentimentLine(target)
  {
    if !configured then Raise(NotConfiguredMessage) else Send(SentimentLine(target))
  }

  /** `len(text) < 2 or all(not ch.isalnum() for ch in text)`. */
  predicate LooksMalformed(text: string)
  {
    |text| < 2 || forall i :: 0 <= i < |text| ==> !IsAlnum(text[i])
  }

  /** `https?://\S+` matching at the start of an already lowered text. */
  predicate StartsLink(l: string)
  {
    || ("http://" <= l && |l| > 7 && !IsSpace(l[7]))
    || ("https://" <= l && |l| > 8 && !IsSpace(l[8]))
  }

  /** `re.search` of the link pattern: a match starting anywhere in `l`. */
  predicate LinkFrom(l: string)
  {
    StartsLink(l) || (l != [] && LinkFrom(l[1..]))
  }

  /** `URL_RE.search(text)` with `re.IGNORECASE`: the pattern is searched in the lowered text. */
  predicate HasLink(text: string)
  {
    LinkFrom(Lower(text))
  }

  /** The search succeeds exactly when the pattern matches at some position. */
  lemma {:induction false} LinkFromAt(l: string)
    ensures LinkFrom(l) <==> exists i :: 0 <= i <= |l| && StartsLink(l[i..])
  {
    if l == [] {
      assert l[0..] == l;
    } else {
      LinkFromAt(l[1..]);
      assert l[0..] == l;
      if exists i :: 0 <= i <= |l| && StartsLink(l[i..]) {
        var i :| 0 <= i <= |l| && StartsLink(l[i..]);
        if i > 0 {
          assert l[1..][i - 1..] == l[i..];
        }
      }
      if LinkFrom(l[1..]) {
        var i :| 0 <= i <= |l[1..]| && StartsLink(l[1..][i..]);
        assert l[1..][i..] == l[i + 1..];
      }
    }
  }

  /** `EchoBot.on_message_activity`: the reply for one message activity; a `None` text reads as empty. */
  function OnMessage(text: Option<string>, hasAttachments: bool, configured: bool): (o: Outcome)
    ensures text.None? ==> o == Send(if hasAttachments then AttachmentNotice else NoText)
  {
    Respond(Received(text), hasAttachments, configured)
  }

  /** The if-chain of `on_message_activity` on the stripped text `t`. */
  function Respond(t: string, hasAttachments: bool, configured: bool): (o: Outcome)
    ensures o.Send? && o.reply.Reversed? ==> Reverse(o.reply.text) == t && !LooksMalformed(t)
  {
    var low := Lower(t);
    if t == [] then Send(if hasAttachments then AttachmentNotice else NoText)
    else if IsSentimentCommand(low) then
      var target := SentimentTarget(t);
      if target == [] then Send(SentimentUsage) else SentimentLineFor(target, configured)
    else if AsksHelp(low) then Send(Capabilities)
    else if AsksTime(low) then Send(CurrentTime)
    else if AsksDate(low) then Send(TodayDate)
    else if SaysBye(low) then Send(Goodbye)
    else if Greets(low) then Send(Greeting)
    else if LooksMalformed(t) then Send(Malformed)
    else if HasLink(t) then Send(LinkNotice)
    else
      ReverseReverse(t);
      Send(Reversed(Reverse(t)))
  }

  /** Empty text gets the attachment notice or the no-text reply, and nothing else does. */
  lemma EmptyTextReplies(t: string, hasAttachments: bool, configured: bool)
    ensures Respond(t, hasAttachments, configured) == Send(AttachmentNotice)
      <==> t == [] && hasAttachments
    ensures Respond(t, hasAttachments, configured) == Send(NoText)
      <==> t == [] && !hasAttachments
  {
  }

  /**
   * The command is tested before every keyword: a command text gets the
   * usage prompt or the sentiment of its original-case remainder, whatever
   * keywords it also holds, and only command texts get these outcomes.
   */
  lemma SentimentCommandFirst(t: string, hasAttachments: bool, configured: bool)
    ensures var o := Respond(t, hasAttachments, configured);
      (o == Send(SentimentUsage) || o.Raise? || (o.Send? && o.reply.SentimentLine?))
        <==> t != [] && IsSentimentCommand(Lower(t))
    ensures var o := Respond(t, hasAttachments, configured);
      t != [] && IsSentimentCommand(Lower(t)) ==>
        (o == Send(SentimentUsage) <==> AllSpace(t[9..]))
        && (o.Send? && o.reply.SentimentLine? ==> o.reply.target == Strip(t[9..]) && o.reply.target != [])
  {
  }

  /** Running the command without a configured client raises the not-configured error. */
  lemma UnconfiguredRaises(t: string, hasAttachments: bool, configured: bool)
    ensures var o := Respond(t, hasAttachments, configured);
      o.Raise? <==> t != [] && IsSentimentCommand(Lower(t)) && !AllSpace(t[9..]) && !configured
    ensures Respond(t, hasAttachments, configured).Raise? ==>
      Respond(t, hasAttachments, configured).message == NotConfiguredMessage
  {
  }

  /**
   * The command word itself holds "time": without the command test coming
   * first, every `sentiment ...` message would be answered with the time.
   */
  lemma CommandMentionsTime(low: string)
    requires IsSentimentCommand(low)
    ensures AsksTime(low)
  {
    assert low[..9] == "sentiment";
    assert low[3..7] == "time";
    OccurrenceContained(low, "time", 3);
  }

  /** Keyword precedence: help, then time, date, farewell and greeting, each a substring test. */
  lemma KeywordPrecedence(t: string, hasAttachments: bool, configured: bool)
    ensures var low := Lower(t);
      var o := Respond(t, hasAttachments, configured);
      var pre := t != [] && !IsSentimentCommand(low);
      && (o == Send(Capabilities) <==> pre && AsksHelp(low))
      && (o == Send(CurrentTime) <==> pre && !AsksHelp(low) && AsksTime(low))
      && (o == Send(TodayDate) <==> pre && !AsksHelp(low) && !AsksTime(low) && AsksDate(low))
      && (o == Send(Goodbye) <==> pre && !AsksHelp(low) && !AsksTime(low) && !AsksDate(low) && SaysBye(low))
      && (o == Send(Greeting) <==>
          pre && !AsksHelp(low) && !AsksTime(low) && !AsksDate(low) && !SaysBye(low) && Greets(low))
  {
  }

  /** No keyword matched: the text before the heuristics and the echo. */
  predicate Unmatched(t: string)
  {
    var low := Lower(t);
    t != [] && !IsSentimentCommand(low) && !AsksHelp(low) && !AsksTime(low) && !AsksDate(low)
    && !SaysBye(low) && !Greets(low)
  }

  /**
   * The malformed reply comes only after every keyword missed, and then
   * exactly for short or alphanumeric-free text; the link reply follows it.
   */
  lemma HeuristicReplies(t: string, hasAttachments: bool, configured: bool)
    ensures var o := Respond(t, hasAttachments, configured);
      && (o == Send(Malformed) <==> Unmatched(t) && LooksMalformed(t))
      && (o == Send(LinkNotice) <==> Unmatched(t) && !LooksMalformed(t) && HasLink(t))
  {
  }

  /** Everything else is echoed reversed. */
  lemma EchoFallback(t: string, hasAttachments: bool, configured: bool)
    ensures var o := Respond(t, hasAttachments, configured);
      (o.Send? && o.reply.Reversed?) <==> Unmatched(t) && !LooksMalformed(t) && !HasLink(t)
  {
  }

  /** The echoed reply is the stripped text reversed. */
  lemma EchoIsReversed(t: string, hasAttachments: bool, configured: bool)
    ensures var o := Respond(t, hasAttachments, configured);
      o.Send? && o.reply.Reversed? ==> o.reply.text == Reverse(t)
  {
    var o := Respond(t, hasAttachments, configured);
    if o.Send? && o.reply.Reversed? {
      ReverseReverse(o.reply.text);
    }
  }
}
