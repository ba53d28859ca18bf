/**
  What of a STAX job the action factories see: the file and machine its
  document came from, and the one job data slot the STAF command factory
  keeps, "stafcmdRequestMap", the sorted map of the job's running
  `<stafcmd>` requests.
 */
module Jobs {
  import opened Dom

  /**
    A running STAF command as the LIST and QUERY handlers read it through the
    action's getters.
   */
  datatype CommandRecord = CommandRecord(
    name: string,
    location: string,
    requestNumber: int,
    service: string,
    request: string,
    blockName: string,
    threadNumber: int,
    startTimestamp: string)

  /**
    `String.compareTo(a, b) < 0`: the first differing character decides, and
    a proper prefix comes first.
   */
  predicate StringLess(a: string, b: string)
    decreases |a|
  {
    if |a| == 0 then |b| > 0
    else if |b| == 0 then false
    else if a[0] != b[0] then a[0] < b[0]
    else StringLess(a[1..], b[1..])
  }

  /** No string comes before itself, so ascending keys are distinct. */
  lemma {:induction false} StringLessIrreflexive(a: string)
    ensures !StringLess(a, a)
    decreases |a|
  {
    if |a| > 0 {
      StringLessIrreflexive(a[1..]);
    }
  }

  /**
    A `TreeMap<String, STAXSTAFCommandAction>`: the keys (request numbers as
    strings) in the order the map iterates them, and the command stored under
    each key.
   */
  datatype RequestMap = RequestMap(keys: seq<string>, commands: map<string, CommandRecord>)
  {
    /** The keys ascend in `String` order and are exactly the map's keys. */
    ghost predicate Valid()
    {
      && (forall i, j :: 0 <= i < j < |keys| ==> StringLess(keys[i], keys[j]))
      && (forall k :: k in commands <==> k in keys)
    }
  }

  const EmptyRequestMap := RequestMap([], map[])

  /** The parts of STAXJob the factories use. */
  class Job {
    const xmlFile: string
    const xmlMachine: string
    /** The data slot "stafcmdRequestMap"; None while nothing is stored under it. */
    var stafcmdRequestMap: Option<RequestMap>

    constructor (xmlFile: string, xmlMachine: string)
      ensures this.xmlFile == xmlFile && this.xmlMachine == xmlMachine
      ensures stafcmdRequestMap == None
    {
      this.xmlFile := xmlFile;
      this.xmlMachine := xmlMachine;
      stafcmdRequestMap := None;
    }
  }
}
