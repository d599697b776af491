/**
 * The filter panel of the frontend (`AdvancedFilters.tsx`): the filter record
 * every view reads, its initial value, the weekday toggles and the reset.
 * The panel keeps a local copy of the filters that it hands back on apply.
 */
module AdvancedFilters {
  import opened Lists

  /** Which calendars the views draw their events from. */
  datatype Source = Service | Main | Visible | All

  /**
   * `FilterState`: date bounds `YYYY-MM-DD` and time bounds `HH:MM` (empty
   * when unset), the selected weekdays (1 = Monday, ..., 7 = Sunday) and the
   * source.
   */
  datatype FilterState = FilterState(
    dateStart: string, dateEnd: string, startTime: string, endTime: string,
    days: seq<int>, source: Source)

  /** `initialFilters`: no bounds, every weekday, the service calendars. */
  const InitialFilters: FilterState :=
    FilterState("", "", "", "", [1, 2, 3, 4, 5, 6, 7], Service)

  /** The initial filters select each weekday once, and nothing else. */
  lemma InitialDays()
    ensures forall d :: d in InitialFilters.days <==> 1 <= d <= 7
    ensures NoDup(InitialFilters.days)
  {
  }

  /** `toggleDay` on a list of days: drop every `d` when one is there, append `d` otherwise. */
  function ToggleDayIn(days: seq<int>, d: int): (r: seq<int>)
    ensures d in r <==> d !in days
    ensures forall x :: x != d ==> (x in r <==> x in days)
  {
    if d in days then Filter(days, x => x != d) else days + [d]
  }

  /** `toggleDay(d)`: the local filters with day `d` toggled and every other field kept. */
  function ToggleDay(local: FilterState, d: int): (r: FilterState)
    ensures r == local.(days := ToggleDayIn(local.days, d))
  {
    local.(days := ToggleDayIn(local.days, d))
  }

  /** Toggling the same day twice restores which days are selected. */
  lemma ToggleTwice(local: FilterState, d: int)
    ensures forall x :: x in ToggleDay(ToggleDay(local, d), d).days <==> x in local.days
  {
  }

  /** Removing a day keeps the other days in their order; adding one puts it last. */
  lemma ToggleDayOrder(days: seq<int>, d: int)
    ensures d in days ==> ToggleDayIn(days, d) == Filter(days, x => x != d)
    ensures d !in days ==> ToggleDayIn(days, d) == days + [d]
  {
  }

  /** The panel's local copy after `handleReset`, and the filters it applies. */
  datatype ResetEffect = ResetEffect(local: FilterState, applied: FilterState)

  /** `handleReset`: the local copy and the applied filters both become `initialFilters`. */
  function HandleReset(local: FilterState): (r: ResetEffect)
    ensures r.local == InitialFilters && r.applied == InitialFilters
  {
    ResetEffect(InitialFilters, InitialFilters)
  }

  /** Whatever days were toggled before, a reset forgets them. */
  lemma ResetForgetsToggles(local: FilterState, toggled: seq<int>)
    ensures HandleReset(ToggleAll(local, toggled)) == HandleReset(local)
  {
  }

  /** A sequence of toggles, applied in order. */
  function ToggleAll(local: FilterState, ds: seq<int>): (r: FilterState)
    ensures r.source == local.source && r.dateStart == local.dateStart && r.dateEnd == local.dateEnd
    ensures r.startTime == local.startTime && r.endTime == local.endTime
    decreases |ds|
  {
    if ds == [] then local else ToggleAll(ToggleDay(local, ds[0]), ds[1..])
  }
}
