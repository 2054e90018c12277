/**
 * The records of the consistency tracker (lib/types.ts). Identifiers, which
 * the store generates as opaque strings, are natural numbers here.
 */
module Types {

  datatype Option<T> = None | Some(value: T)

  type Id = nat

  /**
   * A trackable habit. `frequency` is read by the statistics ("daily" or
   * "per_session"); any value other than "daily" is treated as per-session.
   * `createdAt` and `removedAt` are timestamps; a removed task keeps its row.
   */
  datatype Task = Task(
    id: Id,
    userId: Id,
    name: string,
    emoji: string,
    sortOrder: int,
    frequency: string,
    createdAt: string,
    removedAt: Option<string>)

  /** The record that a user engaged with one session on one day. */
  datatype CheckIn = CheckIn(id: Id, userId: Id, date: string, sessionNumber: int)

  /** Whether one task was marked done within one check-in. */
  datatype Completion = Completion(id: Id, checkInId: Id, taskId: Id, completed: bool)

  /**
   * One day's score. The totals are sums of per-task caps, which involve the
   * configured sessions per day, an arbitrary number; hence `int`.
   */
  datatype DayStats = DayStats(date: string, totalTasks: int, completedTasks: int, percentage: int)

  datatype TaskStats = TaskStats(task: Task, totalPossible: int, totalCompleted: int, percentage: int)

  datatype Streak = Streak(current: nat, longest: nat)
}
