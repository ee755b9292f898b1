/** Exactly which wire capabilities project, and to what (the projectors of
    packages/wallet-bridge/src/dispatcher.ts): a relation between wire fields and capabilities,
    field by field, that the projection decides. */
module Projection {
  import opened Wrappers
  import opened Wire
  import opened FieldAddress
  import opened Capabilities

  predicate DescribesFlag(v: Value, f: Flag)
  {
    if f.None? then v == Undefined else v == Bool(f.value)
  }

  /** An object naming a wildcard or an address, and a function. */
  predicate DescribesPattern(v: Value, p: ScopePattern)
  {
    && v.Obj? && Field(v, "contract") == Str(p.contract) && Field(v, "function") == Str(p.fn)
    && (p.contract == "*" || IsFieldAddress(p.contract)) && p.fn != ""
  }

  predicate DescribesScope(v: Value, s: Scope)
  {
    match s
    case AnyScope => v == Str("*")
    case Listed(ps) => v.Arr? && |v.items| == |ps| && forall i | 0 <= i < |ps| :: DescribesPattern(v.items[i], ps[i])
  }

  predicate DescribesHolder(v: Value, s: Option<Scope>)
  {
    if s.None? then v == Undefined else v.Obj? && DescribesScope(Field(v, "scope"), s.value)
  }

  predicate DescribesList(v: Value, l: AddressList)
  {
    match l
    case AnyAddress => v == Str("*")
    case Addresses(xs) =>
      v.Arr? && |v.items| == |xs| && forall i | 0 <= i < |xs| :: v.items[i] == Str(xs[i]) && IsFieldAddress(xs[i])
  }

  /** An account entry: its item is text, and an alias that is not text is as good as none. */
  predicate DescribesEntry(v: Value, e: AccountEntry)
  {
    && v.Obj? && Field(v, "item") == Str(e.item)
    && if e.alias.Some? then Field(v, "alias") == Str(e.alias.value) else !Field(v, "alias").Str?
  }

  predicate DescribesEntries(v: Value, l: Option<seq<AccountEntry>>)
  {
    if l.None? then v == Undefined
    else v.Arr? && |v.items| == |l.value| && forall i | 0 <= i < |l.value| :: DescribesEntry(v.items[i], l.value[i])
  }

  predicate DescribesEvents(v: Value, l: Option<AddressList>)
  {
    if l.None? then v == Undefined else v.Obj? && DescribesList(Field(v, "contracts"), l.value)
  }

  /** The wire capability says what the capability is. Fields the type does not have are ignored, a
      data capability must ask for something, and an unknown type is itself. */
  predicate Describes(w: WireCap, c: Capability)
  {
    match c
    case Accounts(get, sign, l) =>
      && w.tag == "accounts" && DescribesFlag(FieldOf(w, "canGet"), get)
      && DescribesFlag(FieldOf(w, "canCreateAuthWit"), sign) && DescribesEntries(FieldOf(w, "accounts"), l)
    case Contracts(l, register, metadata) =>
      && w.tag == "contracts" && DescribesList(FieldOf(w, "contracts"), l)
      && DescribesFlag(FieldOf(w, "canRegister"), register) && DescribesFlag(FieldOf(w, "canGetMetadata"), metadata)
    case ContractClasses(l, metadata) =>
      && w.tag == "contractClasses" && DescribesList(FieldOf(w, "classes"), l)
      && DescribesFlag(FieldOf(w, "canGetMetadata"), metadata)
    case Simulation(t, u) =>
      && w.tag == "simulation" && DescribesHolder(FieldOf(w, "transactions"), t)
      && DescribesHolder(FieldOf(w, "utilities"), u)
    case Transaction(s) => w.tag == "transaction" && DescribesScope(FieldOf(w, "scope"), s)
    case Data(book, events) =>
      && w.tag == "data" && DescribesFlag(FieldOf(w, "addressBook"), book)
      && DescribesEvents(FieldOf(w, "privateEvents"), events)
      && (book == Some(true) || (events.Some? && events.value != Addresses([])))
    case Unknown(tag, fields) =>
      w.tag == tag && w.fields == fields &&
      tag !in {"accounts", "contracts", "contractClasses", "simulation", "transaction", "data"}
  }

  lemma FlagExact(v: Value, f: Flag)
    ensures FlagOf(v) == Some(f) <==> DescribesFlag(v, f)
  {
  }

  lemma PatternExact(v: Value, p: ScopePattern)
    ensures PatternOf(v) == Some(p) <==> DescribesPattern(v, p)
  {
  }

  lemma {:induction false} PatternsExact(vs: seq<Value>, ps: seq<ScopePattern>)
    ensures PatternsOf(vs) == Some(ps) <==> |vs| == |ps| && forall i | 0 <= i < |ps| :: DescribesPattern(vs[i], ps[i])
  {
    if vs != [] && ps != [] {
      PatternExact(vs[0], ps[0]);
      PatternsExact(vs[1..], ps[1..]);
      assert ps == [ps[0]] + ps[1..];
    }
  }

  lemma {:induction false} StringsExact(vs: seq<Value>, xs: seq<string>)
    ensures StringsOf(vs) == Some(xs) <==>
            |vs| == |xs| && forall i | 0 <= i < |xs| :: vs[i] == Str(xs[i]) && IsFieldAddress(xs[i])
  {
    if vs != [] && xs != [] {
      StringsExact(vs[1..], xs[1..]);
      assert xs == [xs[0]] + xs[1..];
    }
  }

  lemma {:induction false} EntriesExact(vs: seq<Value>, es: seq<AccountEntry>)
    ensures EntriesOf(vs) == Some(es) <==> |vs| == |es| && forall i | 0 <= i < |es| :: DescribesEntry(vs[i], es[i])
  {
    if vs != [] && es != [] {
      EntriesExact(vs[1..], es[1..]);
      assert es == [es[0]] + es[1..];
    }
  }

  lemma {:induction false} ScopeExact(v: Value, s: Scope)
    ensures ScopeOf(v) == Some(s) <==> DescribesScope(v, s)
  {
    if v.Arr? && s.Listed? { PatternsExact(v.items, s.patterns); }
  }

  lemma {:induction false} HolderExact(v: Value, s: Option<Scope>)
    ensures ScopeHolderOf(v) == Some(s) <==> DescribesHolder(v, s)
  {
    if s.Some? { ScopeExact(Field(v, "scope"), s.value); }
  }

  lemma {:induction false} ListExact(v: Value, l: AddressList)
    ensures AddressListOf(v) == Some(l) <==> DescribesList(v, l)
  {
    if v.Arr? && l.Addresses? { StringsExact(v.items, l.list); }
  }

  lemma {:induction false} EventsExact(v: Value, l: Option<AddressList>)
    ensures EventsOf(v) == Some(l) <==> DescribesEvents(v, l)
  {
    if l.Some? { ListExact(Field(v, "contracts"), l.value); }
  }

  lemma {:induction false} AccountsExact(v: Value, l: Option<seq<AccountEntry>>)
    ensures AccountListOf(v) == Some(l) <==> DescribesEntries(v, l)
  {
    if v.Arr? && l.Some? { EntriesExact(v.items, l.value); }
  }

  /** Projection decides the relation: a wire capability projects to `c` if and only if it describes
      `c`, so it is refused exactly when it describes nothing. */
  lemma {:induction false} ProjectsExactly(w: WireCap, c: Capability)
    ensures Project(w) == Some(c) <==> Describes(w, c)
  {
    match c
    case Accounts(get, sign, l) =>
      FlagExact(FieldOf(w, "canGet"), get);
      FlagExact(FieldOf(w, "canCreateAuthWit"), sign);
      AccountsExact(FieldOf(w, "accounts"), l);
    case Contracts(l, register, metadata) =>
      ListExact(FieldOf(w, "contracts"), l);
      FlagExact(FieldOf(w, "canRegister"), register);
      FlagExact(FieldOf(w, "canGetMetadata"), metadata);
    case ContractClasses(l, metadata) =>
      ListExact(FieldOf(w, "classes"), l);
      FlagExact(FieldOf(w, "canGetMetadata"), metadata);
    case Simulation(t, u) =>
      HolderExact(FieldOf(w, "transactions"), t);
      HolderExact(FieldOf(w, "utilities"), u);
    case Transaction(s) => ScopeExact(FieldOf(w, "scope"), s);
    case Data(book, events) =>
      FlagExact(FieldOf(w, "addressBook"), book);
      EventsExact(FieldOf(w, "privateEvents"), events);
    case Unknown(_, _) =>
  }
}
