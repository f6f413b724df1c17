/** The display scheduler of the `/tv` page (`updateMode`). */
module Display {

  /** Opening hours are 06:00 to 22:00; within them an ad runs during the first seven minutes of each hour. */
  function ShowAds(hour: int, minute: int): (ads: bool)
    ensures ads ==> 6 <= hour < 22
    ensures 6 <= hour < 22 ==> (ads <==> minute < 7)
  {
    var withinOpening := hour >= 6 && hour < 22;
    withinOpening && minute < 7
  }

  /** On a minute-of-day clock: ads exactly from 06:00 to 21:59, in minutes 0 to 6 of each hour. */
  lemma AdsByMinuteOfDay(t: int)
    requires 0 <= t < 24 * 60
    ensures ShowAds(t / 60, t % 60) <==> 6 * 60 <= t < 22 * 60 && t % 60 < 7
  {
  }
}
