/** The operating account (`lichess.bot.model.Account`) and the bot-title check. */
module Accounts {
  import opened Wrappers
  import opened JavaText

  datatype Account = Account(id: JString, username: JString, title: JString)

  /** `Account.isBot()`: the title, compared with "bot" ignoring case, the constant asking. */
  function IsBot(a: Account): bool
  {
    a.title.Some? && EqualsIgnoreCase("bot", a.title.value)
  }

  /** The check in `LichessBot.validate`: a present title that equals "bot" ignoring case, the title asking. */
  function Validate(a: Account): bool
  {
    a.title != None && EqualsIgnoreCase(a.title.value, "bot")
  }

  /** Both revisions of the title check accept the same accounts. */
  lemma ValidateIsIsBot(a: Account)
    ensures Validate(a) == IsBot(a)
  {
    if a.title.Some? {
      EqualsIgnoreCaseSymmetric(a.title.value, "bot");
    }
  }

  /**
   * An account is a bot exactly when its title is present and spells "bot"
   * in any mix of cases: no trimming, no prefix, no suffix.
   */
  lemma IsBotMeans(a: Account)
    ensures IsBot(a) <==>
      (a.title.Some? && |a.title.value| == 3
       && a.title.value[0] in "bB" && a.title.value[1] in "oO" && a.title.value[2] in "tT")
  {
    if a.title.Some? && |a.title.value| == 3 {
      var t := a.title.value;
      assert "bot"[0] == 'b' && "bot"[1] == 'o' && "bot"[2] == 't';
      if IsBot(a) {
        assert LowerChar(t[0]) == 'b' && LowerChar(t[1]) == 'o' && LowerChar(t[2]) == 't';
      }
    }
  }

  lemma IsBotExamples()
    ensures !IsBot(Account(None, None, None))
    ensures !IsBot(Account(None, None, Some(" bot")))
    ensures !IsBot(Account(None, None, Some("bots")))
    ensures IsBot(Account(None, None, Some("BOT")))
    ensures IsBot(Account(None, None, Some("Bot")))
    ensures IsBot(Account(None, None, Some("bOt")))
  {
    IsBotMeans(Account(None, None, Some(" bot")));
    IsBotMeans(Account(None, None, Some("BOT")));
    IsBotMeans(Account(None, None, Some("Bot")));
    IsBotMeans(Account(None, None, Some("bOt")));
  }
}
