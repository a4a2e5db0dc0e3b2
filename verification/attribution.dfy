/** The data-source footer (`DataAttribution`): per source a colour for the age of its last
    update and an update-time text, and the system status line. Update instants are epoch
    milliseconds; the clock reading is a parameter. */
module Attribution {
  import opened Wrappers
  import Storage
  import Routes

  const Missing: string := "text-gray-400"
  const Fresh: string := "text-green-400"
  const Aging: string := "text-yellow-400"
  const Stale: string := "text-red-400"

  /** The age in minutes, `(now - update) / (1000 * 60)` in floating point. */
  function AgeMinutes(update: int, now: int): real {
    (now - update) as real / 60000.0
  }

  /** `getStatusColor`: gray without a time stamp; otherwise green under an hour, yellow
      under three hours, red from three hours on. */
  function StatusColor(update: Option<int>, now: int): (r: string)
    ensures update.None? <==> r == Missing
    ensures update.Some? ==> (r == Fresh <==> now - update.value < 60 * 60000)
    ensures update.Some? ==> (r == Aging <==> 60 * 60000 <= now - update.value < 180 * 60000)
    ensures update.Some? ==> (r == Stale <==> now - update.value >= 180 * 60000)
  {
    match update
    case None => Missing
    case Some(t) =>
      var age := AgeMinutes(t, now);
      if age < 60.0 then Fresh else if age < 180.0 then Aging else Stale
  }

  /** The freshness rank of a colour: stale lowest, missing counted with stale. */
  function FreshnessRank(color: string): nat {
    if color == Fresh then 2 else if color == Aging then 1 else 0
  }

  /** An older update never gets a fresher colour; a future time stamp is green. */
  lemma StatusColorMonotone(older: int, newer: int, now: int)
    requires older <= newer
    ensures FreshnessRank(StatusColor(Some(older), now)) <= FreshnessRank(StatusColor(Some(newer), now))
    ensures newer > now ==> StatusColor(Some(newer), now) == Fresh
  {
  }

  /** `formatUpdateTime`: "Loading..." without a time stamp, otherwise the locale rendering
      (the `format` parameter). */
  function UpdateTimeText(update: Option<int>, format: int -> string): (r: string)
    ensures update.None? ==> r == "Loading..."
    ensures update.Some? ==> r == format(update.value)
  {
    if update.Some? then format(update.value) else "Loading..."
  }

  /** `systemStatus?.status || "Initializing..."`. */
  function StatusText(status: Option<string>): (r: string)
    ensures TruthyString(status) ==> r == status.value
    ensures !TruthyString(status) ==> r == "Initializing..."
  {
    StringOr(status, "Initializing...")
  }

  /** Before any cone snapshot is stored, the hurricane line reads gray "Loading..." and the
      status line shows the server's demo status. */
  lemma FooterBeforeFirstCones(s: Storage.Store, user: Option<string>, now: int, format: int -> string)
    requires Storage.GetLatestNhcData(s, "cones").None?
    ensures var body := Routes.Status(s, user);
            && StatusColor(body.lastNhcUpdate, now) == Missing
            && UpdateTimeText(body.lastNhcUpdate, format) == "Loading..."
            && StatusText(Some(body.status)) == "demo_mode"
  {
  }
}
