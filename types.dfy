/** The records the dashboard and the route simulation share: a dustbin with
    its position, fill level and history, and the distance oracle the route
    optimiser is parameterised by. */
module DustbinTypes {

  datatype Option<+T> = None | Some(value: T)

  /** A geographic position in degrees. */
  datatype Coord = Coord(lat: real, lng: real)

  datatype Status = Normal | Warning | Critical

  /** One reading of the fill sensor: a millisecond timestamp and a percentage. */
  datatype HistoryEntry = HistoryEntry(timestamp: int, fill: real)

  /** A dustbin as the dashboard and the optimiser see it. */
  datatype Dustbin = Dustbin(
    id: string,
    name: string,
    location: string,
    fill: real,
    coordinates: Coord,
    lastUpdated: int,
    status: Status,
    capacity: real,
    history: seq<HistoryEntry>)

  /** The great-circle distance in kilometres between two positions. Only its
      non-negativity is assumed; the haversine formula itself is not modelled. */
  type Metric = f: (Coord, Coord) -> real | forall a: Coord, b: Coord :: f(a, b) >= 0.0
    witness (a: Coord, b: Coord) => 0.0

  /** The text form of a status, as the dashboard stores it. */
  function StatusName(s: Status): string
  {
    match s
    case Normal => "normal"
    case Warning => "warning"
    case Critical => "critical"
  }
}
