/**
 CppScriptAPI: the engine calls the native scripts use. Modelled here are
 GetGameTime and GUICommon's SetGamedaysAndHourToken, which turns the game
 clock into the GAMEDAYS and HOUR tokens. A game day is 7200 ticks and a game
 hour 300 ticks; the displayed hour is offset by 12, so tick 0 is noon of
 day 0.
 */
module CppScriptApi {

  const TICKS_PER_DAY: nat := 7200
  const TICKS_PER_HOUR: nat := 300

  /** Whole days elapsed at tick `t`. */
  function GameDays(t: nat): (d: nat)
    ensures d * TICKS_PER_DAY <= t < (d + 1) * TICKS_PER_DAY
  {
    t / 7200
  }

  /** Whole hours elapsed since the start of the current day. */
  function HourIndex(t: nat): (h: nat)
    ensures h < 24
    ensures GameDays(t) * TICKS_PER_DAY + h * TICKS_PER_HOUR <= t < GameDays(t) * TICKS_PER_DAY + (h + 1) * TICKS_PER_HOUR
  {
    (t % 7200) / 300
  }

  /** The hour shown to the player: the hour index moved on by 12, on a 24-hour dial. */
  function DisplayHour(t: nat): (h: nat)
    ensures h < 24 && (h + 12) % 24 == HourIndex(t)
  {
    (HourIndex(t) + 12) % 24
  }

  /** Tick 0 is noon of day 0. */
  lemma StartIsNoon()
    ensures GameDays(0) == 0 && DisplayHour(0) == 12
  {
  }

  /** One day later: one more day, the same hour. */
  lemma NextDay(t: nat)
    ensures GameDays(t + TICKS_PER_DAY) == GameDays(t) + 1
    ensures DisplayHour(t + TICKS_PER_DAY) == DisplayHour(t)
  {
    assert (t + 7200) / 7200 == t / 7200 + 1;
    assert (t + 7200) % 7200 == t % 7200;
  }

  /**
   One hour later the displayed hour moves on by one around the dial, also
   across midnight of the hour index (its 23 is shown as 11, its 0 as 12).
   Within a day the hour index itself moves on by one.
   */
  lemma NextHour(t: nat)
    ensures DisplayHour(t + TICKS_PER_HOUR) == (DisplayHour(t) + 1) % 24
    ensures HourIndex(t) < 23 ==>
      HourIndex(t + TICKS_PER_HOUR) == HourIndex(t) + 1 && GameDays(t + TICKS_PER_HOUR) == GameDays(t)
  {
    var d, r := t / 7200, t % 7200;
    assert t == d * 7200 + r;
    if r + 300 < 7200 {
      assert (t + 300) / 7200 == d && (t + 300) % 7200 == r + 300;
      assert (r + 300) / 300 == r / 300 + 1;
    } else {
      assert (t + 300) / 7200 == d + 1 && (t + 300) % 7200 == r + 300 - 7200;
      assert r / 300 == 23 && (r + 300 - 7200) / 300 == 0;
    }
  }

  /** The decimal digits of `n`, most significant first, without leading zeros. */
  function Decimal(n: nat): (s: string)
    ensures |s| > 0 && (forall i :: 0 <= i < |s| ==> '0' <= s[i] <= '9')
    ensures |s| > 1 ==> s[0] != '0'
    decreases n
  {
    if n < 10 then [Digit(n)] else Decimal(n / 10) + [Digit(n % 10)]
  }

  function Digit(d: nat): (c: char)
    requires d < 10
    ensures '0' <= c <= '9' && c as int - '0' as int == d
  {
    ('0' as int + d) as char
  }

  /** Reads a string of decimal digits back as a number. */
  function ParseDecimal(s: string): nat
    requires forall i :: 0 <= i < |s| ==> '0' <= s[i] <= '9'
  {
    if s == [] then 0 else 10 * ParseDecimal(s[..|s| - 1]) + (s[|s| - 1] as int - '0' as int)
  }

  /** The rendering is faithful: reading the token back gives the number. */
  lemma {:induction false} DecimalRoundTrip(n: nat)
    ensures ParseDecimal(Decimal(n)) == n
    decreases n
  {
    if n >= 10 {
      DecimalRoundTrip(n / 10);
      var s := Decimal(n);
      assert s[..|s| - 1] == Decimal(n / 10);
    }
  }

  /** The game, reduced to its clock. */
  datatype Game = Game(gameTime: nat)

  datatype Option<T> = None | Some(value: T)

  /** The engine core, reduced to the loaded game and the token dictionary. */
  class Interface {
    var game: Option<Game>
    var tokens: map<string, string>

    constructor (game: Option<Game>, tokens: map<string, string>)
      ensures this.game == game && this.tokens == tokens
    {
      this.game := game;
      this.tokens := tokens;
    }

    /** The game clock, or 0 when no game is loaded. */
    function GetGameTime(): (t: nat)
      reads this
      ensures game.None? ==> t == 0
      ensures game.Some? ==> t == game.value.gameTime
    {
      if game.Some? then game.value.gameTime else 0
    }

    /**
     With a game loaded, sets GAMEDAYS to the decimal day count and HOUR to
     the decimal display hour, leaving the other tokens alone; without one,
     changes nothing.
     */
    method SetGamedaysAndHourToken()
      modifies this
      ensures game == old(game)
      ensures game.None? ==> tokens == old(tokens)
      ensures game.Some? ==>
        var t := game.value.gameTime;
        tokens == old(tokens)["GAMEDAYS" := Decimal(GameDays(t))]["HOUR" := Decimal(DisplayHour(t))]
    {
      if game.None? {
        return;
      }
      var t := game.value.gameTime;
      var days := t / 7200;
      var hours := (t % 7200) / 300;
      var realHours := (hours + 12) % 24;
      tokens := tokens["GAMEDAYS" := Decimal(days)];
      tokens := tokens["HOUR" := Decimal(realHours)];
    }
  }

  /** What the tokens read back as after an update: the day count and the display hour. */
  lemma TokensReadBack(t: nat, tokens: map<string, string>)
    requires tokens.Keys >= {"GAMEDAYS", "HOUR"}
    requires tokens["GAMEDAYS"] == Decimal(GameDays(t)) && tokens["HOUR"] == Decimal(DisplayHour(t))
    ensures ParseDecimal(tokens["GAMEDAYS"]) == GameDays(t)
    ensures ParseDecimal(tokens["HOUR"]) == DisplayHour(t)
  {
    DecimalRoundTrip(GameDays(t));
    DecimalRoundTrip(DisplayHour(t));
  }
}
