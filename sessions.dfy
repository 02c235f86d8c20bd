/** The records of the workshop catalog: a session (`Workshop`) with its
    optional room and its speakers, and the lookup `scheduleData.find`. */
module Sessions {
  import opened Wrappers

  type Hour = h: int | 0 <= h < 24
  type Minute = m: int | 0 <= m < 60
  type Second = s: int | 0 <= s < 60
  type Millis = ms: int | 0 <= ms < 1000
  type Month = m: int | 1 <= m <= 12 witness 1
  type DayOfMonth = d: int | 1 <= d <= 31 witness 1
  /** The years a JS `Date` can hold. */
  type Year = y: int | -271821 <= y <= 275760

  /** Local wall-clock time of a timestamp, as `getHours()` and `getMinutes()` give it. */
  datatype ClockTime = ClockTime(hour: Hour, minute: Minute)

  /** UTC calendar fields of a timestamp, as `toISOString()` prints them. */
  datatype UtcDateTime = UtcDateTime(
    year: Year, month: Month, day: DayOfMonth,
    hour: Hour, minute: Minute, second: Second, millis: Millis)

  datatype Room = Room(roomName: string, level: string)

  datatype Speaker = Speaker(first: string, last: string, affiliation: string)

  /** One workshop session. `start` and `end` are the absolute timestamps in
      minutes; `localStart` is the start's local clock time and `utcStart`,
      `utcEnd` the UTC calendar fields of the two timestamps. An absent
      `room` is `None`. Text fields are present; an empty string is an empty
      field, which the `||` fallbacks treat like a missing one. */
  datatype Session = Session(
    id: int,
    title: string,
    description: string,
    sessionType: string,
    skillLevel: string,
    day: string,
    room: Option<Room>,
    speakers: seq<Speaker>,
    start: int,
    end: int,
    localStart: ClockTime,
    utcStart: UtcDateTime,
    utcEnd: UtcDateTime)

  /** `data.find(w => w.session_id === id)`: the first session with that id. */
  function Find(data: seq<Session>, id: int): (r: Option<Session>)
    ensures r.None? <==> forall k :: 0 <= k < |data| ==> data[k].id != id
    ensures r.Some? ==> exists k :: 0 <= k < |data| && data[k] == r.value && r.value.id == id &&
                          forall j :: 0 <= j < k ==> data[j].id != id
  {
    if data == [] then None
    else if data[0].id == id then Some(data[0])
    else
      var r := Find(data[1..], id);
      assert r.Some? ==> exists k :: 1 <= k < |data| && data[k] == r.value && r.value.id == id &&
                          forall j :: 0 <= j < k ==> data[j].id != id by {
        if r.Some? {
          var k :| 0 <= k < |data[1..]| && data[1..][k] == r.value && r.value.id == id &&
                   forall j :: 0 <= j < k ==> data[1..][j].id != id;
          assert forall j :: 1 <= j < k + 1 ==> data[j].id != id by {
            forall j | 1 <= j < k + 1 ensures data[j].id != id { assert data[j] == data[1..][j - 1]; }
          }
        }
      }
      r
  }

  predicate HasId(data: seq<Session>, id: int) {
    exists k :: 0 <= k < |data| && data[k].id == id
  }

  /** No two sessions of the catalog share an id. */
  predicate UniqueIds(data: seq<Session>) {
    forall i, j :: 0 <= i < j < |data| ==> data[i].id != data[j].id
  }

  /** The session a selected id stands for. */
  function Lookup(data: seq<Session>, id: int): (w: Session)
    requires HasId(data, id)
    ensures w in data && w.id == id
  {
    Find(data, id).value
  }

  /** With unique ids, looking a catalog session up by its id finds that session. */
  lemma LookupOwnId(data: seq<Session>, w: Session)
    requires UniqueIds(data) && w in data
    ensures HasId(data, w.id) && Lookup(data, w.id) == w
  {
    var i :| 0 <= i < |data| && data[i] == w;
    assert HasId(data, w.id);
    var r := Find(data, w.id);
    var k :| 0 <= k < |data| && data[k] == r.value && r.value.id == w.id &&
             forall j :: 0 <= j < k ==> data[j].id != w.id;
    assert !(i < k) && !(k < i);
  }
}
