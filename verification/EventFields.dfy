/** Events as lists of selected fields: projecting an event and rebuilding it. */
module EventFields {
  import opened Common
  import opened Codec
  import opened EventIds

  type NodeId = string     // by its text form; the null id is empty

  datatype Variant =
    | Empty
    | ByteString(bytes: seq<Byte>)
    | Node(id: NodeId)
    | Text(text: string)
    | Moment(time: int)
    | Localized(text: string)
    | U16(n: nat)
    | U32(n: nat)
    | U64(n: nat)
    | Flag(on: bool)

  datatype Event = Event(
    eventType: NodeId, eventId: nat, time: int, receiveTime: int, changeMask: nat, severity: nat,
    sourceNode: NodeId, sourceName: string, userId: NodeId, value: Variant, quality: nat,
    message: string, acked: bool, ackedTime: int, ackedUserId: NodeId)

  /** What an event is before anything is known about it. */
  const DEFAULT: Event := Event("i=2130", 0, 0, 0, 0, 500, "", "", "", Empty, 0, "", false, 0, "")

  datatype Property =
    | EventIdField | EventType | SourceNode | SourceName | Time | ReceiveTime | Message | Severity
    | Value | Quality | ChangeMask | UserId | AckedState | AckedTime | AckedUserId

  type Path = seq<string>

  /** A select clause names a property by the last segment of its path. */
  function PropertyOf(path: Path): Option<Property> {
    if path == [] then None
    else
      var name := path[|path| - 1];
      if name == "EventId" then Some(EventIdField)
      else if name == "EventType" then Some(EventType)
      else if name == "SourceNode" then Some(SourceNode)
      else if name == "SourceName" then Some(SourceName)
      else if name == "Time" then Some(Time)
      else if name == "ReceiveTime" then Some(ReceiveTime)
      else if name == "Message" then Some(Message)
      else if name == "Severity" then Some(Severity)
      else if name == "Value" then Some(Value)
      else if name == "Quality" then Some(Quality)
      else if name == "ChangeMask" then Some(ChangeMask)
      else if name == "UserId" then Some(UserId)
      else if name == "AckedState" then Some(AckedState)
      else if name == "AckedTime" then Some(AckedTime)
      else if name == "AckedUserId" then Some(AckedUserId)
      else None
  }

  // ---------- projecting ----------

  function ShownName(e: Event): string {
    if e.sourceName != "" then e.sourceName else e.sourceNode
  }

  function Field(e: Event, p: Property): Variant {
    match p
    case EventIdField => ByteString(Big(e.eventId, 8))
    case EventType => Node(e.eventType)
    case SourceNode => Node(e.sourceNode)
    case SourceName => Text(ShownName(e))
    case Time => Moment(e.time)
    case ReceiveTime => Moment(e.receiveTime)
    case Message => Localized(e.message)
    case Severity => U16(e.severity % 0x1_0000)
    case Value => e.value
    case Quality => U32(e.quality)
    case ChangeMask => U32(e.changeMask)
    case UserId => Node(e.userId)
    case AckedState => Flag(e.acked)
    case AckedTime => Moment(e.ackedTime)
    case AckedUserId => Node(e.ackedUserId)
  }

  function FieldAt(path: Path, e: Option<Event>): Variant {
    if e.None? || PropertyOf(path).None? then Empty else Field(e.value, PropertyOf(path).value)
  }

  /** Something that is not an event has no fields. */
  method ProjectEventFields(paths: seq<Path>, e: Option<Event>) returns (fields: seq<Variant>)
    ensures |fields| == |paths| && forall i :: 0 <= i < |paths| ==> fields[i] == FieldAt(paths[i], e)
  {
    fields := [];
    for i := 0 to |paths|
      invariant |fields| == i && forall j :: 0 <= j < i ==> fields[j] == FieldAt(paths[j], e)
    {
      var property := PropertyOf(paths[i]);
      if e.None? || property.None? {
        fields := fields + [Empty];
      } else {
        fields := fields + [Field(e.value, property.value)];
      }
    }
  }

  // ---------- rebuilding ----------

  /** Assigns a property from a field of a fitting type; older peers send wider integers. */
  function Assign(e: Event, p: Property, v: Variant): Event {
    match p
    case EventIdField =>
      if v.ByteString? then (if |v.bytes| == 8 then e.(eventId := FromBig(v.bytes)) else e)
      else if v.U64? then e.(eventId := v.n) else e
    case EventType => if v.Node? then e.(eventType := v.id) else e
    case SourceNode => if v.Node? then e.(sourceNode := v.id) else e
    case SourceName => if v.Text? then e.(sourceName := v.text) else e
    case Time => if v.Moment? then e.(time := v.time) else e
    case ReceiveTime => if v.Moment? then e.(receiveTime := v.time) else e
    case Message => if v.Localized? then e.(message := v.text) else e
    case Severity => if v.U16? || v.U32? then e.(severity := v.n) else e
    case Value => e.(value := v)
    case Quality => if v.U32? then e.(quality := v.n) else e
    case ChangeMask => if v.U32? then e.(changeMask := v.n) else e
    case UserId => if v.Node? then e.(userId := v.id) else e
    case AckedState => if v.Flag? then e.(acked := v.on) else e
    case AckedTime => if v.Moment? then e.(ackedTime := v.time) else e
    case AckedUserId => if v.Node? then e.(ackedUserId := v.id) else e
  }

  function Rebuild(paths: seq<Path>, fields: seq<Variant>): Event {
    if paths == [] || fields == [] then DEFAULT
    else if |paths| > |fields| then Rebuild(paths[..|fields|], fields)
    else if |fields| > |paths| then Rebuild(paths, fields[..|paths|])
    else
      var n := |paths| - 1;
      var e := Rebuild(paths[..n], fields[..n]);
      if PropertyOf(paths[n]).None? then e else Assign(e, PropertyOf(paths[n]).value, fields[n])
  }

  method ReconstructEventFromFields(paths: seq<Path>, fields: seq<Variant>) returns (e: Event)
    ensures e == Rebuild(paths, fields)
  {
    var count := if |paths| < |fields| then |paths| else |fields|;
    e := DEFAULT;
    for i := 0 to count
      invariant e == Rebuild(paths[..i], fields[..i])
    {
      assert paths[..i + 1][..i] == paths[..i] && fields[..i + 1][..i] == fields[..i];
      hide Assign, PropertyOf;
      var property := PropertyOf(paths[i]);
      if property.Some? {
        e := Assign(e, property.value, fields[i]);
      }
    }
    assert |paths| == count ==> paths[..count] == paths;
    assert |fields| == count ==> fields[..count] == fields;
  }

  // ---------- round trip ----------

  /** What the wire makes of an event: a 16-bit severity, and the source's id where it has no name. */
  function Normal(e: Event): Event {
    e.(severity := e.severity % 0x1_0000, sourceName := ShownName(e))
  }

  lemma NormalTwice(e: Event)
    ensures Normal(Normal(e)) == Normal(e)
  {
  }

  ghost predicate Selects(paths: seq<Path>, p: Property) {
    exists i :: 0 <= i < |paths| && PropertyOf(paths[i]) == Some(p)
  }

  /** The exact value of a property. */
  function Shown(e: Event, p: Property): Variant {
    match p
    case EventIdField => U64(e.eventId)
    case EventType => Node(e.eventType)
    case SourceNode => Node(e.sourceNode)
    case SourceName => Text(e.sourceName)
    case Time => Moment(e.time)
    case ReceiveTime => Moment(e.receiveTime)
    case Message => Localized(e.message)
    case Severity => U32(e.severity)
    case Value => e.value
    case Quality => U32(e.quality)
    case ChangeMask => U32(e.changeMask)
    case UserId => Node(e.userId)
    case AckedState => Flag(e.acked)
    case AckedTime => Moment(e.ackedTime)
    case AckedUserId => Node(e.ackedUserId)
  }

  /** An event is nothing but its properties. */
  lemma PropertiesDetermine(a: Event, b: Event)
    requires forall p :: Shown(a, p) == Shown(b, p)
    ensures a == b
  {
    hide Shown;
    SameProperty(a, b, EventIdField);
    SameProperty(a, b, EventType);
    SameProperty(a, b, SourceNode);
    SameProperty(a, b, SourceName);
    SameProperty(a, b, Time);
    SameProperty(a, b, ReceiveTime);
    SameProperty(a, b, Message);
    SameProperty(a, b, Severity);
    SameProperty(a, b, Value);
    SameProperty(a, b, Quality);
    SameProperty(a, b, ChangeMask);
    SameProperty(a, b, UserId);
    SameProperty(a, b, AckedState);
    SameProperty(a, b, AckedTime);
    SameProperty(a, b, AckedUserId);
  }

  lemma SameProperty(a: Event, b: Event, p: Property)
    requires Shown(a, p) == Shown(b, p)
    ensures match p
            case EventIdField => a.eventId == b.eventId
            case EventType => a.eventType == b.eventType
            case SourceNode => a.sourceNode == b.sourceNode
            case SourceName => a.sourceName == b.sourceName
            case Time => a.time == b.time
            case ReceiveTime => a.receiveTime == b.receiveTime
            case Message => a.message == b.message
            case Severity => a.severity == b.severity
            case Value => a.value == b.value
            case Quality => a.quality == b.quality
            case ChangeMask => a.changeMask == b.changeMask
            case UserId => a.userId == b.userId
            case AckedState => a.acked == b.acked
            case AckedTime => a.ackedTime == b.ackedTime
            case AckedUserId => a.ackedUserId == b.ackedUserId
  {
  }

  /** One property from `a`, the others from `b`. */
  function Take(p: Property, a: Event, b: Event): Event {
    match p
    case EventIdField => b.(eventId := a.eventId)
    case EventType => b.(eventType := a.eventType)
    case SourceNode => b.(sourceNode := a.sourceNode)
    case SourceName => b.(sourceName := a.sourceName)
    case Time => b.(time := a.time)
    case ReceiveTime => b.(receiveTime := a.receiveTime)
    case Message => b.(message := a.message)
    case Severity => b.(severity := a.severity)
    case Value => b.(value := a.value)
    case Quality => b.(quality := a.quality)
    case ChangeMask => b.(changeMask := a.changeMask)
    case UserId => b.(userId := a.userId)
    case AckedState => b.(acked := a.acked)
    case AckedTime => b.(ackedTime := a.ackedTime)
    case AckedUserId => b.(ackedUserId := a.ackedUserId)
  }

  lemma TakeShows(p: Property, a: Event, b: Event, q: Property)
    ensures Shown(Take(p, a, b), q) == if p == q then Shown(a, q) else Shown(b, q)
  {
  }

  /** Assigning a projected field takes that property over, as the wire shows it. */
  lemma AssignField(e: Event, p: Property, into: Event)
    requires e.eventId < Pow(8)
    ensures Assign(into, p, Field(e, p)) == Take(p, Normal(e), into)
  {
    IdRoundTrip(e.eventId, 8);
    hide Big, FromBig, Pow;
  }

  /** Whatever paths are selected, in whatever order and how often, the event rebuilt from its
      projection has exactly the selected properties, as the wire shows them, and defaults elsewhere. */
  lemma {:induction false} ProjectionRestores(paths: seq<Path>, e: Event, fields: seq<Variant>, q: Property)
    requires e.eventId < Pow(8) && |fields| == |paths|
    requires forall i :: 0 <= i < |paths| ==> fields[i] == FieldAt(paths[i], Some(e))
    ensures Shown(Rebuild(paths, fields), q)
            == if Selects(paths, q) then Shown(Normal(e), q) else Shown(DEFAULT, q)
  {
    if paths != [] {
      hide Assign, PropertyOf, Field, Shown, Normal, Pow, Take;
      var n := |paths| - 1;
      ProjectionRestores(paths[..n], e, fields[..n], q);
      SelectsNext(paths, q);
      var p := PropertyOf(paths[n]);
      if p.Some? {
        var before := Rebuild(paths[..n], fields[..n]);
        AssignField(e, p.value, before);
        TakeShows(p.value, Normal(e), before, q);
      }
    }
  }

  lemma SelectsNext(paths: seq<Path>, q: Property)
    requires paths != []
    ensures var n := |paths| - 1;
            Selects(paths, q) <==> Selects(paths[..n], q) || PropertyOf(paths[n]) == Some(q)
  {
    hide PropertyOf;
    var n := |paths| - 1;
    if Selects(paths[..n], q) {
      var i :| 0 <= i < n && PropertyOf(paths[..n][i]) == Some(q);
      assert PropertyOf(paths[i]) == Some(q);
    }
    if Selects(paths, q) {
      var i :| 0 <= i < |paths| && PropertyOf(paths[i]) == Some(q);
      assert i < n ==> paths[..n][i] == paths[i];
    }
  }

  // ---------- rebuilding from anything ----------

  /** The value a field gives a property, if its type fits: an event id comes as eight bytes or, from older
      peers, as a number, a severity in 16 or 32 bits; the value of the event may be of any type. */
  function Gives(p: Property, v: Variant): Option<Variant> {
    match p
    case EventIdField =>
      if v.ByteString? && |v.bytes| == 8 then Some(U64(FromBig(v.bytes))) else if v.U64? then Some(v) else None
    case Severity => if v.U16? then Some(U32(v.n)) else if v.U32? then Some(v) else None
    case Value => Some(v)
    case SourceName => if v.Text? then Some(v) else None
    case Message => if v.Localized? then Some(v) else None
    case AckedState => if v.Flag? then Some(v) else None
    case Quality | ChangeMask => if v.U32? then Some(v) else None
    case Time | ReceiveTime | AckedTime => if v.Moment? then Some(v) else None
    case EventType | SourceNode | UserId | AckedUserId => if v.Node? then Some(v) else None
  }

  lemma AssignExactly(e: Event, p: Property, v: Variant, q: Property)
    ensures Shown(Assign(e, p, v), q) == if p == q && Gives(p, v).Some? then Gives(p, v).value else Shown(e, q)
  {
    hide FromBig;
  }

  /** Field `i` gives property `q` its value, and no later one does. */
  ghost predicate GivenBy(paths: seq<Path>, fields: seq<Variant>, n: nat, q: Property, i: int)
    requires n <= |paths| && n <= |fields|
  {
    && 0 <= i < n && PropertyOf(paths[i]) == Some(q) && Gives(q, fields[i]).Some?
    && forall j :: i < j < n && PropertyOf(paths[j]) == Some(q) ==> Gives(q, fields[j]).None?
  }

  /** Over any paths and any fields, each property of the event rebuilt is what the last field for it whose
      type fits gives, and the default if there is none. Fields without a path, and paths without a field,
      do not matter. */
  lemma RebuildExactly(paths: seq<Path>, fields: seq<Variant>, q: Property)
    ensures var n := if |paths| < |fields| then |paths| else |fields|;
            var e := Rebuild(paths, fields);
            && (forall i :: GivenBy(paths, fields, n, q, i) ==> Shown(e, q) == Gives(q, fields[i]).value)
            && ((forall i :: !GivenBy(paths, fields, n, q, i)) ==> Shown(e, q) == Shown(DEFAULT, q))
  {
    var n := if |paths| < |fields| then |paths| else |fields|;
    RebuildShorter(paths, fields, n);
    RebuildPrefix(paths, fields, n, q);
    hide Rebuild, Shown, Gives, PropertyOf;
  }

  lemma RebuildShorter(paths: seq<Path>, fields: seq<Variant>, n: nat)
    requires n == if |paths| < |fields| then |paths| else |fields|
    ensures Rebuild(paths, fields) == Rebuild(paths[..n], fields[..n])
  {
    hide Assign, PropertyOf;
    if |paths| >= |fields| {
      assert fields[..n] == fields;
    }
    if |paths| <= |fields| {
      assert paths[..n] == paths;
    }
  }

  lemma {:induction false} RebuildPrefix(paths: seq<Path>, fields: seq<Variant>, n: nat, q: Property)
    requires n <= |paths| && n <= |fields|
    ensures var e := Rebuild(paths[..n], fields[..n]);
            && (forall i :: GivenBy(paths, fields, n, q, i) ==> Shown(e, q) == Gives(q, fields[i]).value)
            && ((forall i :: !GivenBy(paths, fields, n, q, i)) ==> Shown(e, q) == Shown(DEFAULT, q))
  {
    hide Assign, PropertyOf, Shown, Gives, GivenBy;
    if n == 0 {
      NothingGiven(paths, fields, q);
    } else {
      var k := n - 1;
      RebuildPrefix(paths, fields, k, q);
      assert paths[..n][..k] == paths[..k] && fields[..n][..k] == fields[..k];
      var before, p := Rebuild(paths[..k], fields[..k]), PropertyOf(paths[k]);
      if p.Some? {
        AssignExactly(before, p.value, fields[k], q);
      }
      forall i: int
        ensures GivenBy(paths, fields, n, q, i)
                <==> if p == Some(q) && Gives(q, fields[k]).Some? then i == k else GivenBy(paths, fields, k, q, i)
      {
        GivenNext(paths, fields, k, q, i);
      }
    }
  }

  lemma NothingGiven(paths: seq<Path>, fields: seq<Variant>, q: Property)
    ensures forall i :: !GivenBy(paths, fields, 0, q, i)
  {
  }

  lemma GivenNext(paths: seq<Path>, fields: seq<Variant>, k: nat, q: Property, i: int)
    requires k < |paths| && k < |fields|
    ensures GivenBy(paths, fields, k + 1, q, i)
            <==> if PropertyOf(paths[k]) == Some(q) && Gives(q, fields[k]).Some? then i == k
                 else GivenBy(paths, fields, k, q, i)
  {
    hide PropertyOf, Gives;
  }

  // ---------- names ----------

  /** Which field of the event, and in which form, a path projects, by the last name on it. Any other name
      projects nothing, and so does an empty path. */
  lemma NamesProject(path: Path, e: Event)
    requires path != []
    ensures var name, f := path[|path| - 1], FieldAt(path, Some(e));
            && (name == "EventId" ==> f.ByteString? && |f.bytes| == 8
                                      && forall i :: 0 <= i < 8 ==> f.bytes[i] == e.eventId / Pow(7 - i) % 256)
            && (name == "EventType" ==> f == Node(e.eventType))
            && (name == "SourceNode" ==> f == Node(e.sourceNode))
            && (name == "SourceName" ==> f == Text(if e.sourceName == "" then e.sourceNode else e.sourceName))
            && (name == "Time" ==> f == Moment(e.time))
            && (name == "ReceiveTime" ==> f == Moment(e.receiveTime))
            && (name == "Message" ==> f == Localized(e.message))
            && (name == "Severity" ==> f == U16(e.severity % 65_536))
    ensures var name, f := path[|path| - 1], FieldAt(path, Some(e));
            && (name == "Value" ==> f == e.value)
            && (name == "Quality" ==> f == U32(e.quality))
            && (name == "ChangeMask" ==> f == U32(e.changeMask))
            && (name == "UserId" ==> f == Node(e.userId))
            && (name == "AckedState" ==> f == Flag(e.acked))
            && (name == "AckedTime" ==> f == Moment(e.ackedTime))
            && (name == "AckedUserId" ==> f == Node(e.ackedUserId))
            && (name !in KNOWN ==> f == Empty)
  {
    PropertyNamed(path);
    IdBytes(e.eventId);
    hide Big, Pow, PropertyOf;
  }

  lemma PropertyNamed(path: Path)
    requires path != []
    ensures var name, p := path[|path| - 1], PropertyOf(path);
            && (name == "EventId" ==> p == Some(EventIdField)) && (name == "EventType" ==> p == Some(EventType))
            && (name == "SourceNode" ==> p == Some(SourceNode)) && (name == "SourceName" ==> p == Some(SourceName))
            && (name == "Time" ==> p == Some(Time)) && (name == "ReceiveTime" ==> p == Some(ReceiveTime))
            && (name == "Message" ==> p == Some(Message)) && (name == "Severity" ==> p == Some(Severity))
            && (name == "Value" ==> p == Some(Value)) && (name == "Quality" ==> p == Some(Quality))
            && (name == "ChangeMask" ==> p == Some(ChangeMask)) && (name == "UserId" ==> p == Some(UserId))
            && (name == "AckedState" ==> p == Some(AckedState)) && (name == "AckedTime" ==> p == Some(AckedTime))
            && (name == "AckedUserId" ==> p == Some(AckedUserId)) && (name !in KNOWN ==> p == None)
  {
  }

  const KNOWN: set<string> :=
    {"EventId", "EventType", "SourceNode", "SourceName", "Time", "ReceiveTime", "Message", "Severity", "Value",
     "Quality", "ChangeMask", "UserId", "AckedState", "AckedTime", "AckedUserId"}

  lemma IdBytes(n: nat)
    ensures forall i :: 0 <= i < 8 ==> Big(n, 8)[i] == n / Pow(7 - i) % 256
  {
    forall i | 0 <= i < 8
      ensures Big(n, 8)[i] == n / Pow(7 - i) % 256
    {
      BigDigit(n, 8, i);
    }
  }
}
