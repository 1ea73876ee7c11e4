/** The order signature and the payment-method filter of the pay form,
    from the purchase handler class. The rest of the class is modelled in
    `Validators` (its own URL and contact checks), `Checks` (the request
    checks of `prepare_order`), `Reservation` (the locked read-check-write
    of the unit), `Prepare` (the handler itself) and `MemoryLimit`
    (`parse_memory_limit`). The hash and the serializer are foreign and
    are passed in through `SignEnv`. */
module Ajax {
  import opened Common
  import Units
  import Config
  import Helpers

  // ---------------------------------------------------------------------
  // The signed order data stored under the order token

  /** A value of the order-data array: a scalar, or the `ad_data`
      sub-array. */
  datatype Entry = Scalar(v: Val) | Fields(m: map<Units.ContentField, Val>)

  /** The keys of the order-data array. */
  datatype DataKey =
    | SlotId | SlotTitle | UnitId | UnitKey | PlanType | DurationMonths
    | BasePrice | ColorPrice | TotalPrice | AdData | UserId | CreatedAt
    | CreatedTimestamp | ExpiresAt | RequestId | Signature

  const AllDataKeys: set<DataKey> :=
    {SlotId, SlotTitle, UnitId, UnitKey, PlanType, DurationMonths, BasePrice, ColorPrice,
     TotalPrice, AdData, UserId, CreatedAt, CreatedTimestamp, ExpiresAt, RequestId, Signature}

  type OrderData = map<DataKey, Entry>

  /** The foreign pieces of the signature: `maybe_serialize`, HMAC-SHA256
      keyed by its second argument, `AUTH_KEY` when it is defined, and the
      table prefix. */
  datatype SignEnv = SignEnv(
    serialize: OrderData -> string,
    hmac: (string, string) -> string,
    authKey: Option<string>,
    tablePrefix: string)

  /** `AUTH_KEY` when defined and truthy, else the table prefix followed
      by `zibll_ad_secret`. */
  function SecretKey(env: SignEnv): string {
    if env.authKey.Some? && !EmptyStr(env.authKey.value) then env.authKey.value
    else env.tablePrefix + "zibll_ad_secret"
  }

  /** `generate_order_signature`: the HMAC of the data with any
      `signature` entry removed. */
  function GenerateSignature(d: OrderData, env: SignEnv): string {
    env.hmac(env.serialize(d - {Signature}), SecretKey(env))
  }

  /** The signature does not depend on the `signature` entry itself. */
  lemma SignatureIgnoresOwnEntry(d: OrderData, x: Entry, env: SignEnv)
    ensures GenerateSignature(d[Signature := x], env) == GenerateSignature(d, env)
  {
    assert d[Signature := x] - {Signature} == d - {Signature};
  }

  /** The data with its signature added. */
  function Sign(d: OrderData, env: SignEnv): (r: OrderData)
    ensures r.Keys == d.Keys + {Signature}
    ensures forall k | k in d && k != Signature :: r[k] == d[k]
  {
    d[Signature := Scalar(Str(GenerateSignature(d, env)))]
  }

  /** `verify_order_signature`: false without a signature, otherwise the
      stored signature must equal the one recomputed over the rest. A
      non-string signature is modelled as a mismatch. */
  predicate VerifySignature(d: OrderData, env: SignEnv) {
    Signature in d && d[Signature] == Scalar(Str(GenerateSignature(d, env)))
  }

  /** Signing then verifying succeeds, because the signature is computed
      without its own entry; data without a signature never verifies. */
  lemma SignatureRoundTrip(d: OrderData, env: SignEnv)
    ensures VerifySignature(Sign(d, env), env)
    ensures Signature !in d ==> !VerifySignature(d, env)
  {
    SignatureIgnoresOwnEntry(d, Scalar(Str(GenerateSignature(d, env))), env);
  }

  /** Data that verifies is exactly the signed form of its other entries. */
  lemma VerifiedIsSigned(d: OrderData, env: SignEnv)
    requires VerifySignature(d, env)
    ensures d == Sign(d - {Signature}, env)
  {
    var rest := d - {Signature};
    SignatureIgnoresOwnEntry(rest, d[Signature], env);
    assert rest[Signature := d[Signature]] == d;
  }

  // ---------------------------------------------------------------------
  // The payment-method filter of the pay form

  /** `filter_payment_methods_for_ad` over the method keys: for an ad
      order (pay type 31) a guest loses `balance`, the setting can remove
      `balance`, and a posted slot with a non-empty override keeps only
      the methods it lists. */
  function FilterPaymentMethodsForAd(methods: seq<string>, payType: PVal, loggedIn: bool,
                                     options: map<string, PVal>, postedSlot: PVal,
                                     slots: map<int, Config.Slot>): (r: seq<string>)
    ensures ToInt(payType) != 31 ==> r == methods
    ensures forall x | x in r :: x in methods
    ensures ToInt(payType) == 31 ==> forall x ::
      (x in r <==>
        (x in methods &&
         (x == "balance" ==> loggedIn && BalanceAllowed(options)) &&
         (OverrideOf(postedSlot, slots).Some? ==> x in OverrideOf(postedSlot, slots).value)))
  {
    if ToInt(payType) != 31 then methods
    else
      var m1 := if !loggedIn then Without(methods, ["balance"]) else methods;
      var m2 := if !BalanceAllowed(options) then Without(m1, ["balance"]) else m1;
      match OverrideOf(postedSlot, slots)
      case None => m2
      case Some(ov) => Within(m2, ov)
  }

  /** The `allow_balance_payment` option, on unless stored as false. */
  predicate BalanceAllowed(options: map<string, PVal>) {
    ToBool(Helpers.GetOption(options, "allow_balance_payment", PBool(true)))
  }

  /** The whitelist that applies: the posted slot is non-empty, exists, and
      has a non-empty override array. */
  function OverrideOf(postedSlot: PVal, slots: map<int, Config.Slot>): (r: Option<seq<string>>)
    ensures r.Some? ==> r.value != []
  {
    if !ToBool(postedSlot) then None
    else
      var id := ToInt(postedSlot);
      if id in slots then Config.PaymentOverride(slots[id]) else None
  }
}
