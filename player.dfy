/** Player records, the shapes of the repository's results and the failures it raises. */
module Player {

  /** The statistics sub-record of a player (`data`). Every record is assumed
      to have a height. A missing weight is represented by 0, which
      contributes 0 to the BMI; a missing `last` by the empty sequence.
      `last` holds recent match outcomes: 1 for a win, 0 for a loss; any
      other value is ignored by the aggregates. */
  datatype PlayerData = PlayerData(
    rank: int,
    points: int,
    weight: real,   // grams
    height: real,   // centimetres
    age: int,
    last: seq<int>)

  datatype Country = Country(code: string)

  /** A player record, reduced to the fields that take part in a computation. */
  datatype Player = Player(id: int, country: Country, data: PlayerData)

  /** The optional page size of `find`. */
  datatype Option<+T> = None | Some(value: T)

  datatype PaginationParams = PaginationParams(limit: Option<nat>)

  /** The result of `statistics`, field for field. */
  datatype StatisticEntity = StatisticEntity(
    country: string,
    meanBodyMassIndex: real,
    medianPlayerHeight: real)

  /** The errors the repository throws: the not-found exception of `findOne`
      (which names the id) and the two "empty input" errors. */
  datatype Failure = NotFound(id: int) | HeightsEmpty | PlayersEmpty

  datatype Result<+T> = Ok(value: T) | Err(error: Failure) {
    predicate IsFailure() {
      Err?
    }

    function PropagateFailure<U>(): Result<U>
      requires Err?
    {
      Err(error)
    }

    function Extract(): T
      requires Ok?
    {
      value
    }
  }

  /** The heights of all players, in input order (`players.map(p => p.data.height)`). */
  function Heights(ps: seq<Player>): (hs: seq<real>)
    ensures |hs| == |ps|
    ensures forall i :: 0 <= i < |ps| ==> hs[i] == ps[i].data.height
  {
    seq(|ps|, i requires 0 <= i < |ps| => ps[i].data.height)
  }
}
