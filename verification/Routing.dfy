/**
  How a server finds the handler of a request: interfaces numbered from the back, lists of
  methods and properties that grow at the head, and the order in which requests are told apart.
 */
module Routing {
  import opened Wrappers
  import opened Types
  import opened CStrings
  import opened Codec
  import opened CodecImpl

  // ----- interface numbers -----

  /** Interposer: the recursion hands each interface of the list an id, counting down. */
  function InterposerIds(id: int, n: nat): (r: seq<int>)
    ensures |r| == n && forall i | 0 <= i < n :: r[i] == id - i
    decreases n
  {
    if n == 0 then [] else [id] + InterposerIds(id - 1, n - 1)
  }

  /** SkeletonBase::iface. */
  function Iface(ifaces: seq<string>, id: nat): string
    requires id < |ifaces|
  {
    ifaces[|ifaces| - id - 1]
  }

  const INVALID_ID := -1

  /** Interface names are compared up to their terminator. */
  function FirstNamed(ifaces: seq<string>, name: string): (i: nat)
    ensures i <= |ifaces| && forall j | 0 <= j < i :: CString(ifaces[j]) != name
    ensures i < |ifaces| ==> CString(ifaces[i]) == name
  {
    if ifaces == [] || CString(ifaces[0]) == name then 0 else 1 + FirstNamed(ifaces[1..], name)
  }

  function InterfaceId(ifaces: seq<string>, name: string): int {
    var i := FirstNamed(ifaces, name);
    if i == |ifaces| then INVALID_ID else |ifaces| - i - 1
  }

  method FindInterface(ifaces: seq<string>, name: string) returns (id: int)
    ensures id == InterfaceId(ifaces, name)
  {
    for i := 0 to |ifaces|
      invariant FirstNamed(ifaces, name) >= i
    {
      if CString(ifaces[i]) == name {
        return |ifaces| - i - 1;
      }
    }
    return INVALID_ID;
  }

  predicate DistinctNames(ifaces: seq<string>) {
    forall i, j | 0 <= i < j < |ifaces| :: CString(ifaces[i]) != CString(ifaces[j])
  }

  /** The search for a name of the list finds where it is. */
  lemma FirstAt(ifaces: seq<string>, i: nat)
    requires DistinctNames(ifaces) && i < |ifaces|
    ensures FirstNamed(ifaces, CString(ifaces[i])) == i
  {
  }

  lemma FirstIs(ifaces: seq<string>, name: string, i: nat)
    requires DistinctNames(ifaces) && i < |ifaces|
    ensures FirstNamed(ifaces, name) == i <==> CString(ifaces[i]) == name
  {
    if CString(ifaces[i]) == name {
      FirstAt(ifaces, i);
    }
  }

  lemma IdIs(ifaces: seq<string>, name: string, id: nat)
    requires DistinctNames(ifaces)
    ensures InterfaceId(ifaces, name) == id <==> id < |ifaces| && CString(Iface(ifaces, id)) == name
  {
    if id < |ifaces| {
      FirstIs(ifaces, name, |ifaces| - id - 1);
    }
  }

  lemma NoId(ifaces: seq<string>, name: string)
    ensures InterfaceId(ifaces, name) == INVALID_ID <==> forall i | 0 <= i < |ifaces| :: CString(ifaces[i]) != name
  {
  }

  /** The Interposer hands out the ids that find_interface gives back. */
  lemma IdsCountDown(ifaces: seq<string>)
    requires DistinctNames(ifaces)
    ensures forall i | 0 <= i < |ifaces| ::
              InterposerIds(|ifaces| - 1, |ifaces|)[i] == InterfaceId(ifaces, CString(ifaces[i]))
  {
    forall i | 0 <= i < |ifaces|
      ensures InterposerIds(|ifaces| - 1, |ifaces|)[i] == InterfaceId(ifaces, CString(ifaces[i]))
    {
      FirstAt(ifaces, i);
    }
  }

  /** find_interface and iface are inverse to each other, and to the ids the interfaces were given. */
  lemma IdsAgree(ifaces: seq<string>, name: string, id: nat)
    requires DistinctNames(ifaces)
    ensures id < |ifaces| ==> InterfaceId(ifaces, CString(Iface(ifaces, id))) == id
    ensures InterfaceId(ifaces, name) == id <==> id < |ifaces| && CString(Iface(ifaces, id)) == name
    ensures InterfaceId(ifaces, name) == INVALID_ID <==> forall i | 0 <= i < |ifaces| :: CString(ifaces[i]) != name
    ensures forall i | 0 <= i < |ifaces| ::
              InterposerIds(|ifaces| - 1, |ifaces|)[i] == InterfaceId(ifaces, CString(ifaces[i]))
  {
    IdIs(ifaces, name, id);
    if id < |ifaces| {
      IdIs(ifaces, CString(Iface(ifaces, id)), id);
    }
    NoId(ifaces, name);
    IdsCountDown(ifaces);
  }

  // ----- lists of methods and of properties -----

  /** A method or property; its place in the list is fixed when it is made. */
  class Entry {
    const name: string
    const next: Entry?

    constructor (name: string, next: Entry?)
      ensures this.name == name && this.next == next
    {
      this.name, this.next := name, next;
    }
  }

  ghost predicate Linked(head: Entry?, chain: seq<Entry>)
    decreases chain
  {
    if chain == [] then head == null else head == chain[0] && Linked(chain[0].next, chain[1..])
  }

  /** The first entry of the name. */
  function First(chain: seq<Entry>, name: string): Entry? {
    if chain == [] then null
    else if chain[0].name == name then chain[0]
    else First(chain[1..], name)
  }

  /** A registration: which interface, and what. */
  datatype Registration = Registration(id: nat, entry: Entry)

  /** The list of one interface after a sequence of registrations. */
  function Listed(history: seq<Registration>, id: nat): seq<Entry> {
    if history == [] then []
    else
      var last := history[|history| - 1];
      (if last.id == id then [last.entry] else []) + Listed(history[..|history| - 1], id)
  }

  /** The registration that was made last for a name. */
  function Latest(history: seq<Registration>, id: nat, name: string): Entry? {
    if history == [] then null
    else
      var last := history[|history| - 1];
      if last.id == id && last.entry.name == name then last.entry
      else Latest(history[..|history| - 1], id, name)
  }

  /** On duplicates the later registration wins. */
  lemma {:induction false} LatestWins(history: seq<Registration>, id: nat, name: string)
    ensures First(Listed(history, id), name) == Latest(history, id, name)
  {
    if history != [] {
      var before, last := history[..|history| - 1], history[|history| - 1];
      LatestWins(before, id, name);
      if last.id == id {
        assert ([last.entry] + Listed(before, id))[1..] == Listed(before, id);
      } else {
        assert [] + Listed(before, id) == Listed(before, id);
      }
    }
  }

  class Registry {
    var heads: seq<Entry?>
    ghost var history: seq<Registration>

    ghost predicate Valid()
      reads this
    {
      forall id | 0 <= id < |heads| :: Linked(heads[id], Listed(history, id))
    }

    constructor (n: nat)
      ensures Valid() && |heads| == n && history == []
    {
      heads := seq(n, _ => null);
      history := [];
    }

    /** The base class constructors: the new entry becomes the head of its interface's list. */
    method Register(name: string, id: nat) returns (entry: Entry)
      requires Valid() && id < |heads|
      modifies this
      ensures Valid() && |heads| == |old(heads)| && entry.name == name
      ensures history == old(history) + [Registration(id, entry)]
    {
      entry := new Entry(name, heads[id]);
      heads := heads[id := entry];
      history := history + [Registration(id, entry)];
      assert history[..|history| - 1] == old(history);
      forall k | 0 <= k < |heads| ensures Linked(heads[k], Listed(history, k)) {
        assert old(Linked(heads[k], Listed(history, k)));
        Prepended(old(history), Registration(id, entry), k);
      }
    }

    /** find_method and find_property. */
    method Find(id: nat, name: string) returns (entry: Entry?)
      requires Valid() && id < |heads|
      ensures entry == Latest(history, id, name)
    {
      LatestWins(history, id, name);
      entry := heads[id];
      ghost var chain := Listed(history, id);
      while entry != null
        invariant Linked(entry, chain) && First(chain, name) == Latest(history, id, name)
        decreases chain
      {
        if entry.name == name {
          return;
        }
        entry, chain := entry.next, chain[1..];
      }
    }

    method Any() returns (any: bool)
      requires Valid()
      ensures any <==> exists id | 0 <= id < |heads| :: Listed(history, id) != []
    {
      for id := 0 to |heads|
        invariant forall k | 0 <= k < id :: Listed(history, k) == []
      {
        assert Linked(heads[id], Listed(history, id));
        if heads[id] != null {
          assert Listed(history, id) != [];
          return true;
        }
      }
      return false;
    }
  }

  lemma Prepended(history: seq<Registration>, r: Registration, k: nat)
    ensures Listed(history + [r], k) == (if r.id == k then [r.entry] else []) + Listed(history, k)
    ensures r.id == k ==> Listed(history + [r], k)[1..] == Listed(history, k)
    ensures r.id != k ==> Listed(history + [r], k) == Listed(history, k)
  {
    assert (history + [r])[..|history|] == history;
  }

  // ----- requests -----

  /** How the library was configured. */
  datatype Build = Build(introspection: bool, objectManager: bool)

  datatype Request = Request(iface: string, member: string, args: seq<Wire>)

  datatype Outcome =
    | Introspect
    | NotHandled
    | ObjectManagerRequest
    | Invoke(entry: Entry)
    | GetAll(id: nat)
    | GetProperty(entry: Entry)
    | SetProperty(entry: Entry)
    | Refused(error: Refusal)

  datatype Refusal = UnknownInterface | UnknownMethod | UnknownProperty | InvalidArgs

  const INTROSPECTABLE := "org.freedesktop.DBus.Introspectable"
  const OBJECT_MANAGER := "org.freedesktop.DBus.ObjectManager"
  const PROPERTIES := "org.freedesktop.DBus.Properties"

  predicate BuiltIn(build: Build, iface: string) {
    || (build.introspection && iface == INTROSPECTABLE)
    || (build.objectManager && iface == OBJECT_MANAGER)
    || iface == PROPERTIES
  }

  function TextOf(r: Result<Value>): Option<string> {
    if r.Ok? && r.value.Text? then Some(r.value.s) else None
  }

  /** The string argument at a position, if decoding gets that far. */
  function Argument(args: seq<Wire>, i: nat): Option<string> {
    if i < |args| && args[i].WString? then Some(args[i].s) else None
  }

  /** What a request to the Properties interface comes to. */
  function PropertyRoute(ifaces: seq<string>, properties: seq<Registration>, req: Request): Outcome {
    var iface := Argument(req.args, 0);
    if iface.None? then Refused(InvalidArgs)
    else
      var id := InterfaceId(ifaces, CString(iface.value));
      if id == INVALID_ID then Refused(UnknownInterface)
      else if req.member == "GetAll" then GetAll(id)
      else
        var name := Argument(req.args, 1);
        if name.None? then Refused(InvalidArgs)
        else
          var property := Latest(properties, id, CString(name.value));
          if property == null then Refused(UnknownProperty)
          else if req.member == "Get" then GetProperty(property)
          else if req.member == "Set" then SetProperty(property)
          else Refused(UnknownMethod)
  }

  /** What a request to an interface of the skeleton comes to: the method registered last under its name. */
  function MethodRoute(ifaces: seq<string>, methods: seq<Registration>, req: Request): Outcome {
    var id := InterfaceId(ifaces, req.iface);
    if id == INVALID_ID then Refused(UnknownInterface)
    else
      var m := Latest(methods, id, req.member);
      if m == null then Refused(UnknownMethod) else Invoke(m)
  }

  class Skeleton {
    const ifaces: seq<string>
    const methods: Registry
    const properties: Registry

    ghost predicate Valid()
      reads methods, properties
    {
      methods.Valid() && properties.Valid() && |methods.heads| == |properties.heads| == |ifaces|
    }

    constructor (ifaces: seq<string>)
      ensures Valid() && this.ifaces == ifaces && methods.history == [] && properties.history == []
      ensures fresh(methods) && fresh(properties)
    {
      this.ifaces := ifaces;
      methods := new Registry(|ifaces|);
      properties := new Registry(|ifaces|);
    }

    /** handle_request. */
    method HandleRequest(build: Build, req: Request) returns (r: Outcome)
      requires Valid()
      ensures !BuiltIn(build, req.iface) ==> r == MethodRoute(ifaces, methods.history, req)
      ensures build.introspection && req.iface == INTROSPECTABLE ==>
                r == if req.member == "Introspect" then Introspect else NotHandled
      ensures build.objectManager && req.iface == OBJECT_MANAGER ==> r == ObjectManagerRequest
      ensures req.iface == PROPERTIES ==>
                r == if exists id | 0 <= id < |ifaces| :: Listed(properties.history, id) != []
                     then PropertyRoute(ifaces, properties.history, req) else Refused(UnknownInterface)
    {
      if build.introspection && req.iface == INTROSPECTABLE {
        return if req.member == "Introspect" then Introspect else NotHandled;
      }
      if build.objectManager && req.iface == OBJECT_MANAGER {
        return ObjectManagerRequest;
      }
      if req.iface == PROPERTIES {
        var any := properties.Any();
        if !any {
          return Refused(UnknownInterface);
        }
        r := HandlePropertyRequest(req);
        return;
      }
      var id := FindInterface(ifaces, req.iface);
      if id == INVALID_ID {
        return Refused(UnknownInterface);
      }
      var m := methods.Find(id, req.member);
      if m == null {
        return Refused(UnknownMethod);
      }
      return Invoke(m);
    }

    /** handle_property_request: the arguments are decoded one by one as they are needed. */
    method HandlePropertyRequest(req: Request) returns (r: Outcome)
      requires Valid()
      ensures r == PropertyRoute(ifaces, properties.history, req)
    {
      var iter := new Reader(req.args);
      var iface := DecodeString(iter);
      if iface.None? {
        return Refused(InvalidArgs);
      }
      var id := FindInterface(ifaces, CString(iface.value));
      if id == INVALID_ID {
        return Refused(UnknownInterface);
      }
      if req.member == "GetAll" {
        return GetAll(id);
      }
      var name := DecodeString(iter);
      if name.None? {
        return Refused(InvalidArgs);
      }
      var property := properties.Find(id, CString(name.value));
      if property == null {
        return Refused(UnknownProperty);
      }
      if req.member == "Get" {
        return GetProperty(property);
      } else if req.member == "Set" {
        return SetProperty(property);
      } else {
        return Refused(UnknownMethod);
      }
    }
  }

  method DecodeString(iter: Reader) returns (r: Option<string>)
    requires iter.Valid()
    modifies iter
    ensures iter.Valid() && r == Argument(iter.items, old(iter.pos))
    ensures r.Some? ==> iter.pos == old(iter.pos) + 1
  {
    var d := CodecImpl.Decode(Str, iter);
    return TextOf(d);
  }

  /**
    After any registrations, a request to an ordinary interface invokes a method exactly if
    that method is the last registered under the interface's id and the member's name.
   */
  lemma RoutesExactly(ifaces: seq<string>, methods: seq<Registration>, req: Request, i: nat, m: Entry)
    requires DistinctNames(ifaces) && i < |ifaces| && req.iface == CString(ifaces[i])
    ensures MethodRoute(ifaces, methods, req) == Invoke(m) <==>
            exists k | 0 <= k < |methods| ::
              IsLatest(methods, k, InterposerIds(|ifaces| - 1, |ifaces|)[i], req.member) && methods[k].entry == m
  {
    IdsAgree(ifaces, req.iface, |ifaces| - 1 - i);
    LatestIs(methods, |ifaces| - 1 - i, req.member);
  }

  /** Registration k is for the name, and no later one is. */
  predicate IsLatest(history: seq<Registration>, k: nat, id: int, name: string)
    requires k < |history|
  {
    && history[k].id == id && history[k].entry.name == name
    && forall j | k < j < |history| :: history[j].id != id || history[j].entry.name != name
  }

  lemma {:induction false} LatestIs(history: seq<Registration>, id: nat, name: string)
    ensures Latest(history, id, name) == null <==>
            forall k | 0 <= k < |history| :: history[k].id != id || history[k].entry.name != name
    ensures forall k | 0 <= k < |history| && IsLatest(history, k, id, name) :: Latest(history, id, name) == history[k].entry
    ensures Latest(history, id, name) != null ==> exists k | 0 <= k < |history| :: IsLatest(history, k, id, name)
  {
    if history != [] {
      var n := |history| - 1;
      LatestIs(history[..n], id, name);
      if history[n].id == id && history[n].entry.name == name {
        assert IsLatest(history, n, id, name);
      } else if Latest(history, id, name) != null {
        var k :| 0 <= k < n && IsLatest(history[..n], k, id, name);
        assert IsLatest(history, k, id, name);
      }
      forall k | 0 <= k < |history| && IsLatest(history, k, id, name)
        ensures Latest(history, id, name) == history[k].entry
      {
        if k < n {
          assert IsLatest(history[..n], k, id, name);
        }
      }
    }
  }

  // ----- requests for properties -----

  /** The request's first argument is a text that names interface i. */
  predicate NamesInterface(ifaces: seq<string>, req: Request, i: nat) {
    i < |ifaces| && req.args != [] && req.args[0].WString? && CString(req.args[0].s) == CString(ifaces[i])
  }

  predicate NamesNone(ifaces: seq<string>, req: Request) {
    req.args != [] && req.args[0].WString? && forall i | 0 <= i < |ifaces| :: CString(ifaces[i]) != CString(req.args[0].s)
  }

  /** The property registered last under interface i's id and the second argument. */
  predicate IsProperty(ifaces: seq<string>, properties: seq<Registration>, req: Request, i: nat, m: Entry)
    requires i < |ifaces|
  {
    && |req.args| >= 2 && req.args[1].WString?
    && exists k | 0 <= k < |properties| ::
         IsLatest(properties, k, InterposerIds(|ifaces| - 1, |ifaces|)[i], CString(req.args[1].s)) && properties[k].entry == m
  }

  /** The members of the interface differ. */
  lemma MembersDiffer()
    ensures "Get" != "Set" && "Get" != "GetAll" && "Set" != "GetAll"
  {
    assert "Get"[0] == 'G' && "Set"[0] == 'S' && "GetAll"[0] == 'G';
    assert |"Get"| == 3 && |"GetAll"| == 6;
  }

  lemma PropertyFound(ifaces: seq<string>, properties: seq<Registration>, req: Request, i: nat)
    requires DistinctNames(ifaces) && NamesInterface(ifaces, req, i) && |req.args| >= 2 && req.args[1].WString?
    ensures InterfaceId(ifaces, CString(req.args[0].s)) == InterposerIds(|ifaces| - 1, |ifaces|)[i] == |ifaces| - 1 - i
    ensures forall m: Entry :: Latest(properties, |ifaces| - 1 - i, CString(req.args[1].s)) == m
                               <==> IsProperty(ifaces, properties, req, i, m)
  {
    IdsAgree(ifaces, CString(req.args[0].s), |ifaces| - 1 - i);
    LatestIs(properties, |ifaces| - 1 - i, CString(req.args[1].s));
  }

  /** Get and Set reach exactly the property registered last under the interface's id and the given name. */
  lemma PropertiesRouteExactly(ifaces: seq<string>, properties: seq<Registration>, req: Request, i: nat, m: Entry)
    requires DistinctNames(ifaces) && NamesInterface(ifaces, req, i) && |req.args| >= 2 && req.args[1].WString?
    ensures PropertyRoute(ifaces, properties, req) == GetProperty(m) <==>
            req.member == "Get" && IsProperty(ifaces, properties, req, i, m)
    ensures PropertyRoute(ifaces, properties, req) == SetProperty(m) <==>
            req.member == "Set" && IsProperty(ifaces, properties, req, i, m)
  {
    MembersDiffer();
    PropertyFound(ifaces, properties, req, i);
  }

  /** GetAll reaches exactly the interface that the first argument names. */
  lemma GetAllRoutesExactly(ifaces: seq<string>, properties: seq<Registration>, req: Request, id: nat)
    requires DistinctNames(ifaces)
    ensures PropertyRoute(ifaces, properties, req) == GetAll(id) <==>
            req.member == "GetAll" &&
            exists i | 0 <= i < |ifaces| :: NamesInterface(ifaces, req, i) && id == InterposerIds(|ifaces| - 1, |ifaces|)[i]
  {
    MembersDiffer();
    if req.args != [] && req.args[0].WString? {
      NamedById(ifaces, req, id);
      GetAllById(ifaces, properties, req, id);
    } else {
      assert forall i | 0 <= i < |ifaces| :: !NamesInterface(ifaces, req, i);
    }
  }

  lemma GetAllById(ifaces: seq<string>, properties: seq<Registration>, req: Request, id: nat)
    requires req.args != [] && req.args[0].WString?
    ensures PropertyRoute(ifaces, properties, req) == GetAll(id) <==>
            req.member == "GetAll" && InterfaceId(ifaces, CString(req.args[0].s)) == id
  {
    MembersDiffer();
  }

  lemma NamedById(ifaces: seq<string>, req: Request, id: nat)
    requires DistinctNames(ifaces) && req.args != [] && req.args[0].WString?
    ensures InterfaceId(ifaces, CString(req.args[0].s)) == id <==>
            exists i | 0 <= i < |ifaces| :: NamesInterface(ifaces, req, i) && id == InterposerIds(|ifaces| - 1, |ifaces|)[i]
  {
    IdIs(ifaces, CString(req.args[0].s), id);
    var i := |ifaces| - 1 - id;
    if 0 <= i && NamesInterface(ifaces, req, i) {
      assert id == InterposerIds(|ifaces| - 1, |ifaces|)[i];
    }
  }

  /** The request names an interface, but lacks the name of a property that its member needs. */
  predicate LacksName(req: Request) {
    req.member != "GetAll" && (|req.args| < 2 || !req.args[1].WString?)
  }

  /** Some registration is for interface i and the second argument. */
  predicate Registered(ifaces: seq<string>, properties: seq<Registration>, req: Request, i: nat)
    requires i < |ifaces|
  {
    |req.args| >= 2 && req.args[1].WString? &&
    exists k | 0 <= k < |properties| ::
      properties[k].id == InterposerIds(|ifaces| - 1, |ifaces|)[i] && properties[k].entry.name == CString(req.args[1].s)
  }

  /** What is refused when no interface is named: the arguments, or the interface. */
  lemma RefusalsWithoutInterface(ifaces: seq<string>, properties: seq<Registration>, req: Request)
    requires forall i | 0 <= i < |ifaces| :: !NamesInterface(ifaces, req, i)
    ensures PropertyRoute(ifaces, properties, req) ==
            Refused(if NamesNone(ifaces, req) then UnknownInterface else InvalidArgs)
    ensures NamesNone(ifaces, req) <==> req.args != [] && req.args[0].WString?
  {
    if req.args != [] && req.args[0].WString? {
      forall i | 0 <= i < |ifaces| ensures CString(ifaces[i]) != CString(req.args[0].s) {
        assert !NamesInterface(ifaces, req, i);
      }
      NoId(ifaces, CString(req.args[0].s));
    }
  }

  /** What is refused when interface i is named, and only then what. */
  lemma RefusalsExactly(ifaces: seq<string>, properties: seq<Registration>, req: Request, i: nat)
    requires DistinctNames(ifaces) && NamesInterface(ifaces, req, i)
    ensures PropertyRoute(ifaces, properties, req) != Refused(UnknownInterface)
    ensures PropertyRoute(ifaces, properties, req) == Refused(InvalidArgs) <==> LacksName(req)
    ensures PropertyRoute(ifaces, properties, req) == Refused(UnknownProperty) <==>
            req.member != "GetAll" && !LacksName(req) && !Registered(ifaces, properties, req, i)
    ensures PropertyRoute(ifaces, properties, req) == Refused(UnknownMethod) <==>
            req.member != "GetAll" && req.member != "Get" && req.member != "Set"
            && !LacksName(req) && Registered(ifaces, properties, req, i)
  {
    MembersDiffer();
    IdsAgree(ifaces, CString(req.args[0].s), |ifaces| - 1 - i);
    if !LacksName(req) && req.member != "GetAll" {
      LatestIs(properties, |ifaces| - 1 - i, CString(req.args[1].s));
    }
  }
}
