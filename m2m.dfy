/** NormalizeM2MData: the list of command triplets a client sends for a
    many-to-many field is reduced to the ids to keep. Only the "replace
    with" command (code 6) is acted on: the first one found decides the
    result. Client values are decoded JSON; numbers are integers here. */
module M2m {
  import opened Wrappers

  /** A decoded JSON value as the source sees it through `interface{}`. */
  datatype Json = JNumber(n: int) | JArray(items: seq<Json>) | JOther

  /** What NormalizeM2MData returns: the empty record set of the relation,
      the relation's records whose ids are in a list, or the value as given. */
  datatype M2mValue = EmptySet | RecordsWithIds(ids: seq<int>) | Unchanged(value: Json)

  /** The type assertions the source makes without checking, each of which
      panics when it fails. */
  datatype M2mError =
    | MalformedTriplet(triplet: Json)   // not a list, empty, or a non-number code
    | MalformedIds(triplet: Json)       // code 6 without a list of numbers at index 2

  const ReplaceCode: int := 6

  /** `triplet.([]interface{})[0].(float64)`, as an integer. */
  function CommandCode(triplet: Json): Option<int>
  {
    if triplet.JArray? && |triplet.items| > 0 && triplet.items[0].JNumber? then Some(triplet.items[0].n)
    else None
  }

  /** The ids of a list of numbers; None when some item is not a number. */
  function NumbersOf(items: seq<Json>): (r: Option<seq<int>>)
    ensures r.Some? <==> forall i :: 0 <= i < |items| ==> items[i].JNumber?
    ensures r.Some? ==> |r.value| == |items| && forall i :: 0 <= i < |items| ==> items[i] == JNumber(r.value[i])
  {
    if items == [] then Some([])
    else if !items[0].JNumber? then None
    else match NumbersOf(items[1..])
      case None => None
      case Some(rest) => Some([items[0].n] + rest)
  }

  /** `triplet.([]interface{})[2].([]interface{})`, converted id by id. */
  function IdList(triplet: Json): Option<seq<int>>
  {
    if triplet.JArray? && |triplet.items| > 2 && triplet.items[2].JArray? then NumbersOf(triplet.items[2].items)
    else None
  }

  /** Index of the first triplet at which the scan stops: the first one
      with code 6 or without a readable code; |triplets| if none. */
  function FirstStop(triplets: seq<Json>): (i: nat)
    ensures i <= |triplets|
    ensures forall j :: 0 <= j < i ==> CommandCode(triplets[j]).Some? && CommandCode(triplets[j]).value != ReplaceCode
    ensures i < |triplets| ==> CommandCode(triplets[i]) != Some(ReplaceCode) ==> CommandCode(triplets[i]).None?
  {
    if triplets == [] then 0
    else if CommandCode(triplets[0]).None? || CommandCode(triplets[0]).value == ReplaceCode then 0
    else 1 + FirstStop(triplets[1..])
  }

  /** The loop over the triplets: codes 0 to 5, and any other code but 6,
      are skipped; code 6 returns its id list. */
  function ScanCommands(triplets: seq<Json>): (r: Result<Option<seq<int>>, M2mError>)
    ensures r == Ok(None) <==>
      forall j :: 0 <= j < |triplets| ==> CommandCode(triplets[j]).Some? && CommandCode(triplets[j]).value != ReplaceCode
    ensures r.Err? ==> r.error.triplet in triplets
  {
    if triplets == [] then Ok(None)
    else
      var t := triplets[0];
      match CommandCode(t)
      case None => Err(MalformedTriplet(t))
      case Some(code) =>
        if code == ReplaceCode then
          match IdList(t)
          case None => Err(MalformedIds(t))
          case Some(ids) => Ok(Some(ids))
        else ScanCommands(triplets[1..])
  }

  /** NormalizeM2MData on a decoded client value. */
  function NormalizeM2MData(value: Json): (r: Result<M2mValue, M2mError>)
    ensures !value.JArray? ==> r == Ok(Unchanged(value))
    ensures value == JArray([]) ==> r == Ok(EmptySet)
    ensures value.JArray? && value.items != [] ==>
      var triplets := value.items;
      var i := FirstStop(triplets);
      r == if i == |triplets| then Ok(Unchanged(value))
           else if CommandCode(triplets[i]).None? then Err(MalformedTriplet(triplets[i]))
           else if IdList(triplets[i]).None? then Err(MalformedIds(triplets[i]))
           else Ok(RecordsWithIds(IdList(triplets[i]).value))
  {
    match value
    case JArray(items) =>
      if |items| == 0 then Ok(EmptySet)
      else (
        ScanStopsAtFirst(items);
        match ScanCommands(items)
        case Err(e) => Err(e)
        case Ok(None) => Ok(Unchanged(value))
        case Ok(Some(ids)) => Ok(RecordsWithIds(ids)))
    case _ => Ok(Unchanged(value))
  }

  /** The scan is decided by the first triplet at which it stops: none
      means no command to act on; a malformed one is an error; a code 6
      gives its id list, or an error if that list is malformed. */
  lemma {:induction false} ScanStopsAtFirst(triplets: seq<Json>)
    ensures var i := FirstStop(triplets);
      ScanCommands(triplets) ==
        if i == |triplets| then Ok(None)
        else if CommandCode(triplets[i]).None? then Err(MalformedTriplet(triplets[i]))
        else if IdList(triplets[i]).None? then Err(MalformedIds(triplets[i]))
        else Ok(Some(IdList(triplets[i]).value))
  {
    if triplets != [] && CommandCode(triplets[0]).Some? && CommandCode(triplets[0]).value != ReplaceCode {
      ScanStopsAtFirst(triplets[1..]);
      assert triplets[1..][FirstStop(triplets[1..])..] == triplets[FirstStop(triplets)..];
      if FirstStop(triplets) < |triplets| {
        assert triplets[1..][FirstStop(triplets[1..])] == triplets[FirstStop(triplets)];
      }
    }
  }

  /** The first code-6 triplet wins: whatever follows it is never read. */
  lemma FirstReplaceWins(triplets: seq<Json>, k: nat, ids: seq<int>)
    requires k < |triplets|
    requires forall j :: 0 <= j < k ==> CommandCode(triplets[j]).Some? && CommandCode(triplets[j]).value != ReplaceCode
    requires CommandCode(triplets[k]) == Some(ReplaceCode) && IdList(triplets[k]) == Some(ids)
    ensures NormalizeM2MData(JArray(triplets)) == Ok(RecordsWithIds(ids))
  {
    ScanStopsAtFirst(triplets);
    FirstStopIs(triplets, k);
  }

  /** The stop position is determined by the facts FirstStop promises. */
  lemma {:induction false} FirstStopIs(triplets: seq<Json>, k: nat)
    requires k < |triplets|
    requires forall j :: 0 <= j < k ==> CommandCode(triplets[j]).Some? && CommandCode(triplets[j]).value != ReplaceCode
    requires CommandCode(triplets[k]) == Some(ReplaceCode) || CommandCode(triplets[k]).None?
    ensures FirstStop(triplets) == k
  {
    if k > 0 {
      FirstStopIs(triplets[1..], k - 1);
    }
  }

  /** Conversely, a record set with ids comes from a code-6 triplet whose
      every predecessor carries another, readable code. */
  lemma RecordsComeFromFirstReplace(triplets: seq<Json>)
    requires NormalizeM2MData(JArray(triplets)).Ok?
    requires NormalizeM2MData(JArray(triplets)).value.RecordsWithIds?
    ensures var k := FirstStop(triplets);
      && k < |triplets|
      && CommandCode(triplets[k]) == Some(ReplaceCode)
      && IdList(triplets[k]) == Some(NormalizeM2MData(JArray(triplets)).value.ids)
  {
    ScanStopsAtFirst(triplets);
  }

  /** A non-empty list of well-formed triplets none of which has code 6,
      and any value that is not a list, come back unchanged; an empty list
      becomes the empty record set. */
  lemma UnchangedWithoutReplace(value: Json)
    requires value.JArray? ==> forall j :: 0 <= j < |value.items| ==>
      CommandCode(value.items[j]).Some? && CommandCode(value.items[j]).value != ReplaceCode
    ensures NormalizeM2MData(value) == if value == JArray([]) then Ok(EmptySet) else Ok(Unchanged(value))
  {
    if value.JArray? && |value.items| > 0 {
      ScanStopsAtFirst(value.items);
    }
  }

  /** The result never depends on anything after the first stop. */
  lemma ScanIgnoresTail(triplets: seq<Json>, rest: seq<Json>)
    requires FirstStop(triplets) < |triplets|
    ensures ScanCommands(triplets + rest) == ScanCommands(triplets)
  {
    var k := FirstStop(triplets);
    var all := triplets + rest;
    assert forall j :: 0 <= j <= k ==> all[j] == triplets[j];
    FirstStopIs(all, k);
    ScanStopsAtFirst(triplets);
    ScanStopsAtFirst(all);
  }
}
