/**
 * The two bots share one pipeline. They differ in where a yes/no question is
 * sent, in the wording of two reply sets, in addressing the user by name and
 * in stamping each turn with the day and time.
 */
module Variant {
  import opened Text

  /**
   * `NlpBot`: the plain console bot. `DiaryBot`: the diary bot, with the name
   * the user gave (`None` is the handlers' default) and the day and time the
   * turn is stamped with (`%A` and `%H:%M` of the clock, passed in).
   */
  datatype Variant = NlpBot | DiaryBot(userName: Option<string>, day: string, time: string)
}
