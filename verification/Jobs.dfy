/** Benchmarking jobs and the conditions under which a queue runs them. */
module Jobs {
  import opened Wrappers
  import opened TimeRanges

  type u8 = x: int | 0 <= x < 256
  type Priority = real
  type CommitId = string
  type WorkingDirectoryId = nat

  /** The constant part of a job. */
  datatype JobPublic = JobPublic(reason: Option<string>, commitId: CommitId, customParameters: string, command: string)

  datatype JobState = JobState(
    remainingCount: u8,
    remainingErrorBudget: u8,
    lastWorkingDirectory: Option<WorkingDirectoryId>)

  const NORMAL: Priority := 0.0

  datatype Job = Job(pub: JobPublic, state: JobState, basePriority: Priority, currentBoost: Priority) {
    function Priority(): Priority {
      basePriority + currentBoost
    }

    /** The boost is spent once the job has been run. */
    function CloneForQueueReinsertion(newState: JobState): Job {
      this.(state := newState, currentBoost := NORMAL)
    }
  }

  const TIMED_QUEUE_DEFAULT_PRIORITY: Priority := 1.5

  datatype ScheduleCondition =
    | Immediately(situation: string)
    | LocalNaiveTimeWindow(
        priority: Option<Priority>,
        situation: string,
        stopStart: Option<seq<string>>,
        repeatedly: bool,
        moveWhenTimeWindowEnds: bool,
        from: LocalNaiveTime,
        to: LocalNaiveTime)
    | Inactive
  {
    predicate Valid() {
      LocalNaiveTimeWindow? ==> from.Valid() && to.Valid()
    }

    function QueuePriority(): Option<Priority> {
      match this
      case Immediately(_) => Some(NORMAL)
      case LocalNaiveTimeWindow(p, _, _, _, _, _, _) =>
        Some(if p.Some? then p.value else TIMED_QUEUE_DEFAULT_PRIORITY)
      case Inactive => None
    }

    function MovesWhenTimeWindowEnds(): bool {
      LocalNaiveTimeWindow? && moveWhenTimeWindowEnds
    }

    /** None if not runnable; the window that makes it runnable, if it has one. */
    function IsRunnableAt(cal: Calendar, t: Time): Option<Option<DateTimeRange>>
      requires Valid()
    {
      match this
      case Immediately(_) => Some(None)
      case LocalNaiveTimeWindow(_, _, _, _, _, from, to) =>
        var dtr := LocalNaiveTimeRange(from, to).AfterDatetime(cal, t, true);
        if dtr.Some? && dtr.value.Contains(t) then Some(dtr) else None
      case Inactive => None
    }

    /** A windowed queue runs exactly while the clock is in its window. */
    lemma RunnableExactlyInWindow(cal: Calendar, t: Time)
      requires Valid() && LocalNaiveTimeWindow?
      requires cal.Has(DateOf(t) - 1) && cal.Has(DateOf(t) + 2)
      ensures IsRunnableAt(cal, t).Some? <==> LocalNaiveTimeRange(from, to).OnClock(t)
      ensures forall w: DateTimeRange :: IsRunnableAt(cal, t) == Some(Some(w)) ==> w.Contains(t)
    {
      var range := LocalNaiveTimeRange(from, to);
      range.ResultInsideCalendar(cal, t, true);
      range.InsideExactlyOnClock(cal, t);
    }
  }
}
