/** The wallet methods a dApp may call: names, required capability, routing and argument guards
    (packages/wallet-bridge/src/method-descriptors.ts). */
module Methods {
  import opened Wrappers
  import opened Wire
  import opened Capabilities

  datatype Method =
    | GetChainInfo | RequestCapabilities | Batch | GetWalletFeatures
    | CreateAuthWit | RegisterToken | GetAccounts
    | IsTokenRegistered | RegisterContract | GetContractMetadata
    | GetContractClassMetadata | RegisterContractClass
    | SimulateTx | ExecuteUtility | ProfileTx
    | SendTx | GrantPublicAuthwit
    | GetPrivateEvents | GetAddressBook | RegisterSender

  datatype Routing = NetworkOperation | AccountOperation | Handler

  const REGISTRY: map<string, Method> := map[
    "getChainInfo" := GetChainInfo, "requestCapabilities" := RequestCapabilities,
    "batch" := Batch, "getWalletFeatures" := GetWalletFeatures,
    "createAuthWit" := CreateAuthWit, "registerToken" := RegisterToken, "getAccounts" := GetAccounts,
    "isTokenRegistered" := IsTokenRegistered, "registerContract" := RegisterContract,
    "getContractMetadata" := GetContractMetadata,
    "getContractClassMetadata" := GetContractClassMetadata,
    "registerContractClass" := RegisterContractClass,
    "simulateTx" := SimulateTx, "executeUtility" := ExecuteUtility, "profileTx" := ProfileTx,
    "sendTx" := SendTx, "grantPublicAuthwit" := GrantPublicAuthwit,
    "getPrivateEvents" := GetPrivateEvents, "getAddressBook" := GetAddressBook,
    "registerSender" := RegisterSender]

  /** The capability type a method needs; None for the exempt methods. */
  function RequiredType(m: Method): Option<string>
  {
    match m
    case CreateAuthWit | RegisterToken | GetAccounts => Some(ACCOUNTS)
    case IsTokenRegistered | RegisterContract | GetContractMetadata => Some(CONTRACTS)
    case GetContractClassMetadata | RegisterContractClass => Some(CONTRACT_CLASSES)
    case SimulateTx | ExecuteUtility | ProfileTx => Some(SIMULATION)
    case SendTx | GrantPublicAuthwit => Some(TRANSACTION)
    case GetPrivateEvents | GetAddressBook | RegisterSender => Some(DATA)
    case GetChainInfo | RequestCapabilities | Batch | GetWalletFeatures => None
  }

  predicate IsExempt(m: Method) { RequiredType(m).None? }

  function RoutingOf(m: Method): Routing
  {
    match m
    case GetChainInfo | RegisterContract | GetContractMetadata | GetContractClassMetadata => NetworkOperation
    case GetPrivateEvents | GetAddressBook | RegisterSender => NetworkOperation
    case SimulateTx | ExecuteUtility | ProfileTx => AccountOperation
    case _ => Handler
  }

  // ----- argument guards -----

  predicate CapabilitiesArgs(args: seq<Value>)
  {
    var manifest := Arg(args, 0);
    IsNullish(manifest) ||
    (manifest.Obj? &&
     var caps := Field(manifest, "capabilities");
     IsNullish(caps) || (caps.Arr? && forall c | c in caps.items :: !IsNullish(c)))
  }

  predicate IsLeg(v: Value)
  {
    v.Obj? && Field(v, "name").Str? && Field(v, "args").Arr?
  }

  predicate BatchArgs(args: seq<Value>)
  {
    Arg(args, 0).Arr? && forall leg | leg in Arg(args, 0).items :: IsLeg(leg)
  }

  predicate ArgGuard(m: Method, args: seq<Value>)
  {
    match m
    case RequestCapabilities => CapabilitiesArgs(args)
    case Batch => BatchArgs(args)
    case CreateAuthWit | RegisterToken | GrantPublicAuthwit | GetPrivateEvents => |args| >= 2
    case IsTokenRegistered | RegisterContract | GetContractMetadata => |args| >= 1
    case GetContractClassMetadata | RegisterSender => |args| >= 1
    case _ => true
  }

  predicate IsCall(v: Value)
  {
    IsObject(v) && !Field(v, "to").Undefined? && Field(v, "name").Str?
  }

  predicate ExecCalls(v: Value)
  {
    IsObject(v) && Field(v, "calls").Arr? && forall c | c in Field(v, "calls").items :: IsCall(c)
  }

  /** `assertAuthRelevantArgShape`. */
  predicate AuthShape(m: Method, args: seq<Value>)
  {
    match m
    case SendTx | ProfileTx => ExecCalls(Arg(args, 0))
    case ExecuteUtility => IsCall(Arg(args, 0))
    case CreateAuthWit => !IsNullish(Arg(args, 0))
    case RegisterToken => !IsNullish(Arg(args, 0)) && !IsNullish(Arg(args, 1))
    case _ => true
  }
}
