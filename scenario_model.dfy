/** The scenario document (models/scenario.js): its steps, the bounds of its
    schema, and the pre-save hook that stamps `updatedAt` and computes the
    expiry time from the retention period. Times are in milliseconds. */
module ScenarioModel {
  import opened Common

  datatype Step = Step(title: string, description: string, expectedAction: Option<string>, outcome: Option<string>)

  datatype Scenario = Scenario(
    id: string,
    owner: string,
    title: string,
    description: Option<string>,
    steps: seq<Step>,
    retentionDays: Option<int>,
    expireAt: Option<int>,
    createdAt: int,
    updatedAt: int
  )

  const DefaultRetentionDays := 30
  const MaxRetentionDays := 3650
  const DayMs := 24 * 60 * 60 * 1000

  /** A required string: present and not empty. */
  predicate RequiredWithin(s: string, max: int) {
    0 < |s| <= max
  }

  predicate OptionalWithin(s: Option<string>, max: int) {
    s.None? || |s.value| <= max
  }

  /** StepSchema (models/scenario.js:3-8). */
  predicate StepValid(step: Step) {
    && RequiredWithin(step.title, 200)
    && RequiredWithin(step.description, 5000)
    && OptionalWithin(step.expectedAction, 2000)
    && OptionalWithin(step.outcome, 2000)
  }

  /** ScenarioSchema (models/scenario.js:10-21): what Mongoose checks before
      the document is written. */
  predicate ScenarioValid(s: Scenario) {
    && s.owner != ""
    && RequiredWithin(s.title, 200)
    && OptionalWithin(s.description, 2000)
    && (forall i :: 0 <= i < |s.steps| ==> StepValid(s.steps[i]))
    && (s.retentionDays.Some? ==> 1 <= s.retentionDays.value <= MaxRetentionDays)
  }

  /** `this.retentionDays || 30`. */
  function RetentionDays(s: Scenario): (days: int)
    ensures s.retentionDays.Some? && s.retentionDays.value != 0 ==> days == s.retentionDays.value
    ensures s.retentionDays.None? || s.retentionDays.value == 0 ==> days == DefaultRetentionDays
  {
    if s.retentionDays.Some? && s.retentionDays.value != 0 then s.retentionDays.value else DefaultRetentionDays
  }

  /** The `pre('save')` hook (models/scenario.js:23-28) at time `now`. */
  function PreSave(s: Scenario, now: int): (r: Scenario)
    ensures r.updatedAt == now
    ensures r.expireAt == Some(now + RetentionDays(s) * DayMs)
    ensures r.(expireAt := s.expireAt, updatedAt := s.updatedAt) == s
  {
    s.(updatedAt := now, expireAt := Some(now + RetentionDays(s) * DayMs))
  }

  /** A valid document expires between one and 3650 days after its last
      save, exactly its retention period later (30 days when none is set);
      saving again only moves both times. */
  lemma ExpiryFollowsRetention(s: Scenario, now: int, later: int)
    requires ScenarioValid(s)
    ensures var r := PreSave(s, now);
            && r.expireAt.value - r.updatedAt == RetentionDays(s) * DayMs
            && DayMs <= r.expireAt.value - r.updatedAt <= MaxRetentionDays * DayMs
            && (s.retentionDays.None? ==> r.expireAt.value - r.updatedAt == DefaultRetentionDays * DayMs)
            && PreSave(r, later) == PreSave(s, later)
            && ScenarioValid(r)
  {
  }
}
