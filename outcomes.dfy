/** Small result types shared by the calendar and timetable modules. */
module Outcomes {

  /** A value that may be missing; `None` stands for a lookup that threw. */
  datatype Option<+T> = None | Some(value: T)

  /** What a call into the school-information API gave back: its data, or an error. */
  datatype Fetch<+T> = Fetched(data: T) | FetchFailed
}
