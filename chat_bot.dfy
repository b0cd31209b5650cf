/**
 * The message handler of the plain rule-based chat bot
 * (ChatBot/bots/echo_bot.py, `EchoBot.on_message_activity`). Unlike the
 * sentiment bot it tests greetings first, has no command, no attachment
 * branch and no malformed or link heuristics, and only looks at emptiness
 * after every keyword test has missed.
 */
module ChatBot {
  import opened Wrappers
  import opened PyStr
  import opened BotIntents

  datatype Reply =
    | Greeting
    | Capabilities
    | CurrentTime
    | TodayDate
    | Goodbye
    | NoText
    | Reversed(text: string)

  /** `EchoBot.on_message_activity`: the reply for one message activity; a `None` text reads as empty. */
  function OnMessage(text: Option<string>): (r: Reply)
    ensures text.None? ==> r == NoText
  {
    EmptyMentionsNothing();
    Respond(Received(text))
  }

  /** The if-chain of `on_message_activity` on the stripped text `t`. */
  function Respond(t: string): (r: Reply)
    ensures r.Reversed? ==> Reverse(r.text) == t && t != []
  {
    var low := Lower(t);
    if Greets(low) then Greeting
    else if AsksHelp(low) then Capabilities
    else if AsksTime(low) then CurrentTime
    else if AsksDate(low) then TodayDate
    else if SaysBye(low) then Goodbye
    else if t == [] then NoText
    else
      ReverseReverse(t);
      Reversed(Reverse(t))
  }

  /** A greeting word wins over every other keyword, "help" included. */
  lemma GreetingFirst(t: string)
    ensures Respond(t) == Greeting <==> Greets(Lower(t))
  {
  }

  /** The remaining keywords in order: help, time, date, farewell. */
  lemma KeywordPrecedence(t: string)
    ensures var low := Lower(t);
      var r := Respond(t);
      && (r == Capabilities <==> !Greets(low) && AsksHelp(low))
      && (r == CurrentTime <==> !Greets(low) && !AsksHelp(low) && AsksTime(low))
      && (r == TodayDate <==> !Greets(low) && !AsksHelp(low) && !AsksTime(low) && AsksDate(low))
      && (r == Goodbye <==> !Greets(low) && !AsksHelp(low) && !AsksTime(low) && !AsksDate(low) && SaysBye(low))
  {
  }

  /** The empty-text test sits after the keywords, yet no keyword can match the empty text. */
  lemma EmptyGetsNoText(t: string)
    ensures Respond(t) == NoText <==> t == []
  {
    EmptyMentionsNothing();
  }

  /** Any other text is echoed reversed; reversing the reply gives the stripped text back. */
  lemma EchoFallback(t: string)
    ensures var low := Lower(t);
      Respond(t).Reversed? <==>
        t != [] && !Greets(low) && !AsksHelp(low) && !AsksTime(low) && !AsksDate(low) && !SaysBye(low)
    ensures Respond(t).Reversed? ==> Respond(t).text == Reverse(t)
  {
  }
}
