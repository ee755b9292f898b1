/** Capability types, their wire form, and the projection that validates a wire capability and
    copies only its known fields (packages/wallet-bridge/src/capabilities.ts and the projectors
    of packages/wallet-bridge/src/dispatcher.ts). */
module Capabilities {
  import opened Wrappers
  import opened Wire
  import opened FieldAddress

  datatype ScopePattern = ScopePattern(contract: string, fn: string)

  datatype Scope = AnyScope | Listed(patterns: seq<ScopePattern>)

  datatype AddressList = AnyAddress | Addresses(list: seq<string>)

  datatype AccountEntry = AccountEntry(alias: Option<string>, item: string)

  type Flag = Option<bool>

  predicate On(f: Flag) { f == Some(true) }

  datatype Capability =
    | Accounts(canGet: Flag, canCreateAuthWit: Flag, accounts: Option<seq<AccountEntry>>)
    | Contracts(contracts: AddressList, canRegister: Flag, canGetMetadata: Flag)
    | ContractClasses(classes: AddressList, canGetMetadata: Flag)
    | Simulation(transactions: Option<Scope>, utilities: Option<Scope>)
    | Transaction(scope: Scope)
    | Data(addressBook: Flag, privateEvents: Option<AddressList>)
    | Unknown(tag: string, fields: map<string, Value>)

  /** A capability on the wire: an object with a string `type`. */
  datatype WireCap = WireCap(tag: string, fields: map<string, Value>)

  const ACCOUNTS := "accounts"
  const CONTRACTS := "contracts"
  const CONTRACT_CLASSES := "contractClasses"
  const SIMULATION := "simulation"
  const TRANSACTION := "transaction"
  const DATA := "data"

  const KNOWN_TYPES: set<string> :=
    {ACCOUNTS, CONTRACTS, CONTRACT_CLASSES, SIMULATION, TRANSACTION, DATA}

  function TypeOf(c: Capability): string
  {
    match c
    case Accounts(_, _, _) => ACCOUNTS
    case Contracts(_, _, _) => CONTRACTS
    case ContractClasses(_, _) => CONTRACT_CLASSES
    case Simulation(_, _) => SIMULATION
    case Transaction(_) => TRANSACTION
    case Data(_, _) => DATA
    case Unknown(tag, _) => tag
  }

  // ----- well-formed capabilities -----

  predicate WellFormedPattern(p: ScopePattern)
  {
    (p.contract == "*" || IsFieldAddress(p.contract)) && p.fn != ""
  }

  predicate WellFormedScope(s: Scope)
  {
    s.Listed? ==> forall p | p in s.patterns :: WellFormedPattern(p)
  }

  predicate WellFormedList(l: AddressList)
  {
    l.Addresses? ==> forall a | a in l.list :: IsFieldAddress(a)
  }

  predicate WellFormedOpt(s: Option<Scope>) { s.Some? ==> WellFormedScope(s.value) }

  predicate WellFormed(c: Capability)
  {
    match c
    case Accounts(_, _, _) => true
    case Contracts(l, _, _) => WellFormedList(l)
    case ContractClasses(l, _) => WellFormedList(l)
    case Simulation(t, u) => WellFormedOpt(t) && WellFormedOpt(u)
    case Transaction(s) => WellFormedScope(s)
    case Data(book, events) =>
      && (events.Some? ==> WellFormedList(events.value))
      && (On(book) || (events.Some? && events.value != Addresses([])))
    case Unknown(tag, _) => tag !in KNOWN_TYPES
  }

  predicate AllWellFormed(caps: seq<Capability>) { forall c | c in caps :: WellFormed(c) }

  // ----- projection of a wire capability -----

  function FieldOf(w: WireCap, key: string): Value
  {
    if key in w.fields then w.fields[key] else Undefined
  }

  function FlagOf(v: Value): Option<Flag>
  {
    match v
    case Undefined => Some(None)
    case Bool(b) => Some(Some(b))
    case _ => None
  }

  function PatternOf(v: Value): Option<ScopePattern>
  {
    var contract, fn := Field(v, "contract"), Field(v, "function");
    if v.Obj? && contract.Str? && (contract.s == "*" || IsFieldAddress(contract.s)) && fn.Str? && fn.s != ""
    then Some(ScopePattern(contract.s, fn.s))
    else None
  }

  function PatternsOf(vs: seq<Value>): Option<seq<ScopePattern>>
  {
    if vs == [] then Some([])
    else
      var p :- PatternOf(vs[0]);
      var rest :- PatternsOf(vs[1..]);
      Some([p] + rest)
  }

  function ScopeOf(v: Value): Option<Scope>
  {
    if v == Str("*") then Some(AnyScope)
    else if !v.Arr? then None
    else
      var ps :- PatternsOf(v.items);
      Some(Listed(ps))
  }

  /** An optional `{ scope }` holder. */
  function ScopeHolderOf(v: Value): Option<Option<Scope>>
  {
    if v.Undefined? then Some(None)
    else if !v.Obj? then None
    else
      var s :- ScopeOf(Field(v, "scope"));
      Some(Some(s))
  }

  function StringsOf(vs: seq<Value>): Option<seq<string>>
  {
    if vs == [] then Some([])
    else if !vs[0].Str? || !IsFieldAddress(vs[0].s) then None
    else
      var rest :- StringsOf(vs[1..]);
      Some([vs[0].s] + rest)
  }

  function AddressListOf(v: Value): Option<AddressList>
  {
    if v == Str("*") then Some(AnyAddress)
    else if !v.Arr? then None
    else
      var l :- StringsOf(v.items);
      Some(Addresses(l))
  }

  function EntriesOf(vs: seq<Value>): Option<seq<AccountEntry>>
  {
    if vs == [] then Some([])
    else if !vs[0].Obj? || !Field(vs[0], "item").Str? then None
    else
      var alias := Field(vs[0], "alias");
      var rest :- EntriesOf(vs[1..]);
      Some([AccountEntry(if alias.Str? then Some(alias.s) else None, Field(vs[0], "item").s)] + rest)
  }

  function AccountListOf(v: Value): Option<Option<seq<AccountEntry>>>
  {
    if v.Undefined? then Some(None)
    else if !v.Arr? then None
    else
      var es :- EntriesOf(v.items);
      Some(Some(es))
  }

  function EventsOf(v: Value): Option<Option<AddressList>>
  {
    if v.Undefined? then Some(None)
    else if !v.Obj? then None
    else
      var l :- AddressListOf(Field(v, "contracts"));
      Some(Some(l))
  }

  function ProjectData(w: WireCap): Option<Capability>
  {
    var book :- FlagOf(FieldOf(w, "addressBook"));
    var events :- EventsOf(FieldOf(w, "privateEvents"));
    var asksEvents := events.Some? && (events.value.AnyAddress? || |events.value.list| > 0);
    if !On(book) && !asksEvents then None else Some(Data(book, events))
  }

  /** `projectKnownCapability`: None is the "Malformed capability" error; an unknown type passes
      through untouched. */
  function Project(w: WireCap): Option<Capability>
  {
    if w.tag == ACCOUNTS then
      var g :- FlagOf(FieldOf(w, "canGet"));
      var a :- FlagOf(FieldOf(w, "canCreateAuthWit"));
      var l :- AccountListOf(FieldOf(w, "accounts"));
      Some(Accounts(g, a, l))
    else if w.tag == CONTRACTS then
      var l :- AddressListOf(FieldOf(w, "contracts"));
      var r :- FlagOf(FieldOf(w, "canRegister"));
      var m :- FlagOf(FieldOf(w, "canGetMetadata"));
      Some(Contracts(l, r, m))
    else if w.tag == CONTRACT_CLASSES then
      var l :- AddressListOf(FieldOf(w, "classes"));
      var m :- FlagOf(FieldOf(w, "canGetMetadata"));
      Some(ContractClasses(l, m))
    else if w.tag == SIMULATION then
      var t :- ScopeHolderOf(FieldOf(w, "transactions"));
      var u :- ScopeHolderOf(FieldOf(w, "utilities"));
      Some(Simulation(t, u))
    else if w.tag == TRANSACTION then
      var s :- ScopeOf(FieldOf(w, "scope"));
      Some(Transaction(s))
    else if w.tag == DATA then ProjectData(w)
    else Some(Unknown(w.tag, w.fields))
  }

  // ----- the wire form of a capability -----

  function EmbedFlag(key: string, f: Flag): map<string, Value>
  {
    if f.None? then map[] else map[key := Bool(f.value)]
  }

  function EmbedPattern(p: ScopePattern): Value
  {
    Obj(map["contract" := Str(p.contract), "function" := Str(p.fn)])
  }

  function EmbedScope(s: Scope): Value
  {
    if s.AnyScope? then Str("*")
    else Arr(seq(|s.patterns|, i requires 0 <= i < |s.patterns| => EmbedPattern(s.patterns[i])))
  }

  function EmbedHolder(key: string, s: Option<Scope>): map<string, Value>
  {
    if s.None? then map[] else map[key := Obj(map["scope" := EmbedScope(s.value)])]
  }

  function EmbedList(l: AddressList): Value
  {
    if l.AnyAddress? then Str("*")
    else Arr(seq(|l.list|, i requires 0 <= i < |l.list| => Str(l.list[i])))
  }

  function EmbedEntry(e: AccountEntry): Value
  {
    Obj((if e.alias.Some? then map["alias" := Str(e.alias.value)] else map[]) + map["item" := Str(e.item)])
  }

  function EmbedEntries(l: Option<seq<AccountEntry>>): map<string, Value>
  {
    if l.None? then map[]
    else map["accounts" := Arr(seq(|l.value|, i requires 0 <= i < |l.value| => EmbedEntry(l.value[i])))]
  }

  function EmbedEvents(l: Option<AddressList>): map<string, Value>
  {
    if l.None? then map[] else map["privateEvents" := Obj(map["contracts" := EmbedList(l.value)])]
  }

  /** The wire object a stored or requested capability is: exactly its known fields. */
  function Embed(c: Capability): WireCap
  {
    match c
    case Accounts(g, a, l) =>
      WireCap(ACCOUNTS, EmbedFlag("canGet", g) + EmbedFlag("canCreateAuthWit", a) + EmbedEntries(l))
    case Contracts(l, r, m) =>
      WireCap(CONTRACTS,
        map["contracts" := EmbedList(l)] + EmbedFlag("canRegister", r) + EmbedFlag("canGetMetadata", m))
    case ContractClasses(l, m) =>
      WireCap(CONTRACT_CLASSES, map["classes" := EmbedList(l)] + EmbedFlag("canGetMetadata", m))
    case Simulation(t, u) =>
      WireCap(SIMULATION, EmbedHolder("transactions", t) + EmbedHolder("utilities", u))
    case Transaction(s) => WireCap(TRANSACTION, map["scope" := EmbedScope(s)])
    case Data(b, e) => WireCap(DATA, EmbedFlag("addressBook", b) + EmbedEvents(e))
    case Unknown(tag, fields) => WireCap(tag, fields)
  }

  // ----- projection is a retraction of the wire form -----

  lemma {:induction false} PatternsRoundTrip(ps: seq<ScopePattern>, vs: seq<Value>)
    requires forall p | p in ps :: WellFormedPattern(p)
    requires |vs| == |ps| && forall i | 0 <= i < |ps| :: vs[i] == EmbedPattern(ps[i])
    ensures PatternsOf(vs) == Some(ps)
  {
    if ps != [] {
      PatternsRoundTrip(ps[1..], vs[1..]);
      assert vs[0] == EmbedPattern(ps[0]) && WellFormedPattern(ps[0]);
      assert ScopePattern(ps[0].contract, ps[0].fn) == ps[0];
      assert PatternOf(vs[0]) == Some(ps[0]);
      assert [ps[0]] + ps[1..] == ps;
    }
  }

  lemma ScopeRoundTrip(s: Scope)
    requires WellFormedScope(s)
    ensures ScopeOf(EmbedScope(s)) == Some(s)
  {
    if s.Listed? {
      PatternsRoundTrip(s.patterns, EmbedScope(s).items);
    }
  }

  lemma {:induction false} StringsRoundTrip(l: seq<string>, vs: seq<Value>)
    requires forall a | a in l :: IsFieldAddress(a)
    requires |vs| == |l| && forall i | 0 <= i < |l| :: vs[i] == Str(l[i])
    ensures StringsOf(vs) == Some(l)
  {
    if l != [] {
      StringsRoundTrip(l[1..], vs[1..]);
      assert [l[0]] + l[1..] == l;
    }
  }

  lemma ListRoundTrip(l: AddressList)
    requires WellFormedList(l)
    ensures AddressListOf(EmbedList(l)) == Some(l)
  {
    if l.Addresses? {
      StringsRoundTrip(l.list, EmbedList(l).items);
    }
  }

  lemma {:induction false} EntriesRoundTrip(es: seq<AccountEntry>, vs: seq<Value>)
    requires |vs| == |es| && forall i | 0 <= i < |es| :: vs[i] == EmbedEntry(es[i])
    ensures EntriesOf(vs) == Some(es)
  {
    if es != [] {
      EntriesRoundTrip(es[1..], vs[1..]);
      assert vs[0] == EmbedEntry(es[0]);
      assert AccountEntry(es[0].alias, es[0].item) == es[0];
      assert [es[0]] + es[1..] == es;
    }
  }

  lemma HolderRoundTrip(key: string, s: Option<Scope>)
    requires WellFormedOpt(s)
    ensures ScopeHolderOf(if key in EmbedHolder(key, s) then EmbedHolder(key, s)[key] else Undefined) == Some(s)
  {
    if s.Some? {
      ScopeRoundTrip(s.value);
    }
  }

  lemma ProjectEmbedAccounts(c: Capability)
    requires c.Accounts?
    ensures Project(Embed(c)) == Some(c)
  {
    var w := Embed(c);
    var l := c.accounts;
    if l.Some? {
      EntriesRoundTrip(l.value, EmbedEntries(l)["accounts"].items);
    }
    assert AccountListOf(FieldOf(w, "accounts")) == Some(l);
    assert FlagOf(FieldOf(w, "canGet")) == Some(c.canGet);
    assert FlagOf(FieldOf(w, "canCreateAuthWit")) == Some(c.canCreateAuthWit);
  }

  lemma ProjectEmbedLists(c: Capability)
    requires WellFormed(c) && (c.Contracts? || c.ContractClasses?)
    ensures Project(Embed(c)) == Some(c)
  {
    var w := Embed(c);
    if c.Contracts? {
      ListRoundTrip(c.contracts);
      assert AddressListOf(FieldOf(w, "contracts")) == Some(c.contracts);
      assert FlagOf(FieldOf(w, "canRegister")) == Some(c.canRegister);
    } else {
      ListRoundTrip(c.classes);
      assert AddressListOf(FieldOf(w, "classes")) == Some(c.classes);
    }
    assert FlagOf(FieldOf(w, "canGetMetadata")) == Some(c.canGetMetadata);
  }

  lemma ProjectEmbedSimulation(c: Capability)
    requires WellFormed(c) && c.Simulation?
    ensures Project(Embed(c)) == Some(c)
  {
    var w := Embed(c);
    HolderRoundTrip("transactions", c.transactions);
    HolderRoundTrip("utilities", c.utilities);
    assert ScopeHolderOf(FieldOf(w, "transactions")) == Some(c.transactions);
    assert ScopeHolderOf(FieldOf(w, "utilities")) == Some(c.utilities);
  }

  lemma ProjectEmbedData(c: Capability)
    requires WellFormed(c) && c.Data?
    ensures Project(Embed(c)) == Some(c)
  {
    var w := Embed(c);
    if c.privateEvents.Some? { ListRoundTrip(c.privateEvents.value); }
    assert EventsOf(FieldOf(w, "privateEvents")) == Some(c.privateEvents);
    assert FlagOf(FieldOf(w, "addressBook")) == Some(c.addressBook);
  }

  /** Projecting the wire form of a well-formed capability gives it back: what a window echoes
      unchanged is stored unchanged. */
  lemma ProjectEmbed(c: Capability)
    requires WellFormed(c)
    ensures Project(Embed(c)) == Some(c)
  {
    match c
    case Accounts(_, _, _) => ProjectEmbedAccounts(c);
    case Contracts(_, _, _) => ProjectEmbedLists(c);
    case ContractClasses(_, _) => ProjectEmbedLists(c);
    case Simulation(_, _) => ProjectEmbedSimulation(c);
    case Transaction(s) => ScopeRoundTrip(s);
    case Data(_, _) => ProjectEmbedData(c);
    case Unknown(_, _) =>
  }

  lemma {:induction false} PatternsWellFormed(vs: seq<Value>)
    requires PatternsOf(vs).Some?
    ensures forall p | p in PatternsOf(vs).value :: WellFormedPattern(p)
  {
    if vs != [] {
      PatternsWellFormed(vs[1..]);
    }
  }

  lemma ScopeWellFormed(v: Value)
    requires ScopeOf(v).Some?
    ensures WellFormedScope(ScopeOf(v).value)
  {
    if v.Arr? { PatternsWellFormed(v.items); }
  }

  lemma {:induction false} StringsWellFormed(vs: seq<Value>)
    requires StringsOf(vs).Some?
    ensures forall a | a in StringsOf(vs).value :: IsFieldAddress(a)
  {
    if vs != [] {
      StringsWellFormed(vs[1..]);
    }
  }

  lemma ListWellFormed(v: Value)
    requires AddressListOf(v).Some?
    ensures WellFormedList(AddressListOf(v).value)
  {
    if v.Arr? { StringsWellFormed(v.items); }
  }

  /** Whatever the wire carried, what projection lets through is well-formed, keeps its type, and
      is determined by its known fields alone: re-projecting its own wire form changes nothing. */
  lemma ProjectWellFormed(w: WireCap)
    requires Project(w).Some?
    ensures WellFormed(Project(w).value)
    ensures TypeOf(Project(w).value) == w.tag
    ensures Project(Embed(Project(w).value)) == Project(w)
  {
    if w.tag == CONTRACTS {
      ListWellFormed(FieldOf(w, "contracts"));
    } else if w.tag == CONTRACT_CLASSES {
      ListWellFormed(FieldOf(w, "classes"));
    } else if w.tag == SIMULATION {
      var t, u := FieldOf(w, "transactions"), FieldOf(w, "utilities");
      if !t.Undefined? { ScopeWellFormed(Field(t, "scope")); }
      if !u.Undefined? { ScopeWellFormed(Field(u, "scope")); }
    } else if w.tag == TRANSACTION {
      ScopeWellFormed(FieldOf(w, "scope"));
    } else if w.tag == DATA {
      var e := FieldOf(w, "privateEvents");
      if !e.Undefined? { ListWellFormed(Field(e, "contracts")); }
    }
    assert WellFormed(Project(w).value);
    ProjectEmbed(Project(w).value);
  }
}
