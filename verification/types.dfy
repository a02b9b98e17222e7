/**
  Shared vocabulary of the FRED extract-transform-load job: calendar days,
  optional values and results, the two synchronisation modes, the raw points
  the data service returns and the rows of the fact table.
 */
module FredTypes {

  /** A calendar day, counted in whole days from a fixed epoch. */
  type Day = int

  /** The trailing window of the reconciliation: one week, in days. */
  const WindowDays: int := 7

  /** The first day of the trailing week that ends today. */
  function Cutoff(today: Day): Day {
    today - WindowDays
  }

  datatype Option<+T> = None | Some(value: T)

  datatype Result<+R, +E> = Success(value: R) | Failure(error: E)

  /** The fact table holds no row, so no high-water mark exists. */
  datatype RunError = NoPriorData

  /** The two sync modes the job handles. */
  datatype SyncMode = FullLoad | IncrementalLoad

  /** The run's clock: the day it runs and the last day it asks the data service for. */
  datatype Clock = Clock(today: Day, observation: Day)

  /** One observation as the data service returns it; a missing value is `None`. */
  datatype Point<V> = Point(date: Day, value: Option<V>)

  /** The data service's answer for one series, in the order it gives them. */
  datatype Response<V> = Response(series: string, points: seq<Point<V>>)

  /** A row of the fact table: DATE, VALUE, API_CODE and ETL_LOADED_AT. */
  datatype Record<V> = Record(date: Day, value: V, series: string, loadedAt: Day)

  /** The uniqueness key of an observation. */
  datatype Key = Key(date: Day, series: string)

  function KeyOf<V>(r: Record<V>): Key {
    Key(r.date, r.series)
  }

  /** The keys of a sequence of rows. */
  function KeysOf<V>(rows: seq<Record<V>>): set<Key> {
    set i | 0 <= i < |rows| :: KeyOf(rows[i])
  }
}
