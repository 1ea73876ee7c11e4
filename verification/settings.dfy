/** The plugin's settings array (`Zibll_Ad_Settings`): the defaults, the
    type-normalising read `get_all`, the input cleaner `sanitize` and the
    store-then-reread `update`. The stored option is a PHP array, modelled
    as a map from key to PHP value; a stored value that is not an array is
    `None`. */
module Settings {
  import opened Common

  /** A settings key: the twelve the plugin knows, or any other key a saved
      array happens to carry. */
  datatype Key =
    | GlobalPause | AllowGuestPurchase | PurchaseNotice | AllowImageUpload
    | ImageMaxSize | ImageTypes | ExpiryNotification | NoticeDays | KeepData
    | AllowBalance | AllowGuestImage | LinkRedirect
    | Other(name: string)

  /** The PHP array key each known setting is stored under. */
  function KeyName(k: Key): string {
    match k
    case GlobalPause => "global_pause_purchase"
    case AllowGuestPurchase => "allow_guest_purchase"
    case PurchaseNotice => "default_purchase_notice"
    case AllowImageUpload => "allow_image_upload"
    case ImageMaxSize => "image_max_size"
    case ImageTypes => "image_allowed_types"
    case ExpiryNotification => "enable_expiry_notification"
    case NoticeDays => "expiry_notice_days"
    case KeepData => "keep_data_on_uninstall"
    case AllowBalance => "allow_balance_payment"
    case AllowGuestImage => "allow_guest_image_upload"
    case LinkRedirect => "link_redirect"
    case Other(name) => name
  }

  type Store = map<Key, PVal>

  /** `allowed_image_types`. */
  const AllowedTypes: seq<string> := ["jpg", "jpeg", "png", "gif", "webp"]

  /** Every key the plugin knows. */
  const Known: set<Key> := {GlobalPause, AllowGuestPurchase, PurchaseNotice, AllowImageUpload,
    ImageMaxSize, ImageTypes, ExpiryNotification, NoticeDays, KeepData, AllowBalance,
    AllowGuestImage, LinkRedirect}

  /** The known keys whose value is a flag. */
  predicate IsFlag(k: Key) {
    !k.Other? && k != PurchaseNotice && k != ImageMaxSize && k != NoticeDays && k != ImageTypes
  }

  /** `defaults()`; the purchase notice is a translated string, passed in. */
  function Default(k: Key, notice: string): (r: PVal)
    requires !k.Other?
  {
    match k
    case GlobalPause => PBool(false)
    case PurchaseNotice => PStr(notice)
    case ImageMaxSize => PInt(10240)
    case ImageTypes => PList(AllowedTypes)
    case NoticeDays => PInt(7)
    case _ => PBool(true)
  }

  function Defaults(notice: string): (r: Store)
    ensures r.Keys == Known
    ensures forall k | k in r :: r[k] == Default(k, notice)
  {
    map k | k in Known :: Default(k, notice)
  }

  /** `array_map('strtolower', …)`. */
  function LowerAll(xs: seq<string>): (r: seq<string>)
    ensures |r| == |xs| && forall i | 0 <= i < |xs| :: r[i] == ToLower(xs[i])
  {
    seq(|xs|, i requires 0 <= i < |xs| => ToLower(xs[i]))
  }

  /** No upper-case ASCII letter, so `strtolower` leaves it alone. */
  predicate Lowercase(s: string) {
    forall i | 0 <= i < |s| :: !('A' <= s[i] <= 'Z')
  }

  predicate Distinct<T(==)>(xs: seq<T>) {
    forall i, j | 0 <= i < j < |xs| :: xs[i] != xs[j]
  }

  /** PHP `isset ? (bool) value : true`, where only null is unset. */
  function BoolOrTrue(v: PVal): bool {
    if v.PNull? then true else ToBool(v)
  }

  /** The list normalisation `get_all` applies to the file types. */
  function NormalTypes(v: PVal): (r: seq<string>)
    ensures Distinct(r)
    ensures forall x :: x in r ==> Lowercase(x)
  {
    if v.PList? then
      var r := Dedupe(LowerAll(v.items));
      forall x | x in r ensures Lowercase(x) {
        var i :| 0 <= i < |v.items| && LowerAll(v.items)[i] == x;
        LowerTwice(v.items[i]);
      }
      r
    else []
  }

  lemma LowerTwice(s: string)
    ensures Lowercase(ToLower(s))
  {
  }

  /** The settings as `get_all` returns them, each known key with its type. */
  datatype Config = Config(
    globalPause: bool, allowGuestPurchase: bool, notice: PVal, allowImageUpload: bool,
    imageMaxSize: int, imageTypes: seq<string>, expiryNotification: bool, noticeDays: int,
    keepData: bool, allowBalance: bool, allowGuestImage: bool, linkRedirect: bool)

  /** What `get_all` guarantees of every result. */
  predicate Normal(c: Config) {
    c.imageMaxSize >= 1 && c.noticeDays >= 1
    && Distinct(c.imageTypes) && (forall x | x in c.imageTypes :: Lowercase(x))
    && (c.allowGuestImage ==> c.allowImageUpload)
  }

  /** A known key of `array_merge(defaults, saved)`. */
  function Merged(saved: Option<Store>, k: Key, notice: string): PVal
    requires !k.Other?
  {
    if saved.Some? && k in saved.value then saved.value[k] else Default(k, notice)
  }

  /** `get_all`: saved values override the defaults, the known keys are
      given their types, and image upload switched off forces guest image
      upload off. */
  function GetAll(saved: Option<Store>, notice: string): (r: Config)
    ensures Normal(r)
    ensures saved.None? ==> r == Config(false, true, PStr(notice), true, 10240, AllowedTypes,
                                        true, 7, true, true, true, true)
    ensures !r.allowImageUpload ==> !r.allowGuestImage
    ensures saved.Some? && PurchaseNotice in saved.value ==> r.notice == saved.value[PurchaseNotice]
  {
    var upload := BoolOrTrue(Merged(saved, AllowImageUpload, notice));
    if saved.None? then
      assert NormalTypes(PList(AllowedTypes)) == AllowedTypes by {
        AllowedTypesNormal();
      }
      Config(false, true, PStr(notice), true, 10240, AllowedTypes, true, 7, true, true, true, true)
    else
      Config(
        ToBool(Merged(saved, GlobalPause, notice)),
        ToBool(Merged(saved, AllowGuestPurchase, notice)),
        Merged(saved, PurchaseNotice, notice),
        upload,
        Max(1, ToInt(Merged(saved, ImageMaxSize, notice))),
        NormalTypes(Merged(saved, ImageTypes, notice)),
        ToBool(Merged(saved, ExpiryNotification, notice)),
        Max(1, ToInt(Merged(saved, NoticeDays, notice))),
        ToBool(Merged(saved, KeepData, notice)),
        BoolOrTrue(Merged(saved, AllowBalance, notice)),
        upload && BoolOrTrue(Merged(saved, AllowGuestImage, notice)),
        BoolOrTrue(Merged(saved, LinkRedirect, notice)))
  }

  lemma AllowedTypesNormal()
    ensures Distinct(AllowedTypes) && forall x | x in AllowedTypes :: Lowercase(x)
    ensures NormalTypes(PList(AllowedTypes)) == AllowedTypes
  {
    assert forall x | x in AllowedTypes :: Lowercase(x) by {
      assert Lowercase("jpg") && Lowercase("jpeg") && Lowercase("png");
      assert Lowercase("gif") && Lowercase("webp");
    }
    NormalTypesStable(AllowedTypes);
  }

  /** One known key of a `Config` as `update` stores it. */
  function Field(c: Config, k: Key): PVal
    requires !k.Other?
  {
    match k
    case GlobalPause => PBool(c.globalPause)
    case AllowGuestPurchase => PBool(c.allowGuestPurchase)
    case PurchaseNotice => c.notice
    case AllowImageUpload => PBool(c.allowImageUpload)
    case ImageMaxSize => PInt(c.imageMaxSize)
    case ImageTypes => PList(c.imageTypes)
    case ExpiryNotification => PBool(c.expiryNotification)
    case NoticeDays => PInt(c.noticeDays)
    case KeepData => PBool(c.keepData)
    case AllowBalance => PBool(c.allowBalance)
    case AllowGuestImage => PBool(c.allowGuestImage)
    case LinkRedirect => PBool(c.linkRedirect)
  }

  /** The array `get_all` returns: the typed known keys plus whatever
      unknown keys the saved array carries. */
  function AsStore(c: Config, saved: Option<Store>): (r: Store)
    ensures forall k: Key | !k.Other? :: k in r && r[k] == Field(c, k)
    ensures forall k: Key | k.Other? :: k in r <==> saved.Some? && k in saved.value
  {
    var extra := if saved.Some? then saved.value else map[];
    map k | k in Known + extra.Keys :: if k.Other? then extra[k] else Field(c, k)
  }

  function Clamp(x: int, lo: int, hi: int): (r: int)
    requires lo <= hi
    ensures lo <= r <= hi
    ensures lo <= x <= hi ==> r == x
  {
    if x < lo then lo else if x > hi then hi else x
  }

  /** The file-type cleaning of `sanitize`: lower-cased, de-duplicated,
      restricted to the allowed types, and never empty. */
  function SanitizeTypes(v: PVal): (r: seq<string>)
    ensures r != [] && Distinct(r)
    ensures forall x :: x in r ==> x in AllowedTypes
    ensures v.PList? && (exists i | 0 <= i < |v.items| :: ToLower(v.items[i]) in AllowedTypes) ==>
      forall i | 0 <= i < |v.items| && ToLower(v.items[i]) in AllowedTypes :: ToLower(v.items[i]) in r
  {
    var types := if v.PList? then v.items else [];
    var lowered := Dedupe(LowerAll(types));
    var kept := Within(lowered, AllowedTypes);
    WithinDistinct(lowered, AllowedTypes);
    if kept == [] then
      assert forall i | 0 <= i < |types| :: LowerAll(types)[i] in lowered;
      ["jpg", "png"]
    else
      assert forall i | 0 <= i < |types| :: LowerAll(types)[i] in lowered;
      kept
  }

  lemma {:induction false} WithinDistinct<T(!new)>(xs: seq<T>, ys: seq<T>)
    requires Distinct(xs)
    ensures Distinct(Within(xs, ys))
  {
    if xs != [] {
      WithinDistinct(xs[1..], ys);
      assert xs[0] !in xs[1..];
    }
  }

  /** The keys `sanitize` emits: the known keys present in the input, plus
      guest image upload when the input switches image upload off. */
  function SanitizedKeys(data: Store): (r: set<Key>)
    ensures r <= Known
  {
    (set k | k in data && !k.Other?)
    + (if AllowImageUpload in data && !ToBool(data[AllowImageUpload]) then {AllowGuestImage} else {})
  }

  /** The cleaned value of one emitted key. */
  function Clean(k: Key, data: Store, cleanText: PVal -> PVal): (r: PVal)
    requires k in SanitizedKeys(data)
  {
    match k
    case PurchaseNotice => cleanText(data[k])
    case ImageMaxSize => PInt(Clamp(ToInt(data[k]), 10, 10240))
    case ImageTypes => PList(SanitizeTypes(data[k]))
    case NoticeDays => PInt(Clamp(ToInt(data[k]), 1, 60))
    case AllowGuestImage => if k in data then PBool(ToBool(data[k])) else PBool(false)
    case _ => PBool(ToBool(data[k]))
  }

  /** `sanitize`: only keys present in the input are emitted, each cast
      and clamped, except that switching image upload off also emits guest
      image upload off unless the input sets that itself. The notice text
      goes through the foreign `sanitize_textarea_field`. */
  function Sanitize(data: Store, cleanText: PVal -> PVal): (r: Store)
    ensures r.Keys <= (data.Keys * Known) + {AllowGuestImage}
    ensures AllowGuestImage in r && AllowGuestImage !in data ==> AllowImageUpload in data
    ensures ImageMaxSize in r ==> r[ImageMaxSize].PInt? && 10 <= r[ImageMaxSize].i <= 10240
    ensures NoticeDays in r ==> r[NoticeDays].PInt? && 1 <= r[NoticeDays].i <= 60
    ensures ImageTypes in r ==> r[ImageTypes].PList? && r[ImageTypes].items != []
    ensures ImageTypes in r ==> Distinct(r[ImageTypes].items) && forall x :: x in r[ImageTypes].items ==> x in AllowedTypes
    ensures forall k | k in r && IsFlag(k) :: r[k] == PBool(k in data && ToBool(data[k]))
    ensures AllowImageUpload in data && !ToBool(data[AllowImageUpload]) ==> AllowGuestImage in r
  {
    map k | k in SanitizedKeys(data) :: Clean(k, data, cleanText)
  }

  /** `update`: stores the current settings overridden by the cleaned
      input and returns the settings read back. The pair is the stored
      array and the returned settings. */
  function Update(saved: Option<Store>, data: Store, notice: string,
                  cleanText: PVal -> PVal): (r: (Store, Config))
    ensures r.1 == GetAll(Some(r.0), notice)
    ensures ImageMaxSize in data ==> 10 <= r.1.imageMaxSize <= 10240
    ensures NoticeDays in data ==> 1 <= r.1.noticeDays <= 60
    ensures ImageTypes in data ==> r.1.imageTypes != [] && forall x | x in r.1.imageTypes :: x in AllowedTypes
    ensures forall k | k in data && k.Other? :: k in r.0 ==> saved.Some? && k in saved.value
  {
    var clean := Sanitize(data, cleanText);
    var stored := AsStore(GetAll(saved, notice), saved) + clean;
    CleanReadsBack(stored, clean, notice);
    assert forall k | k in data && k.Other? :: k !in clean;
    (stored, GetAll(Some(stored), notice))
  }

  /** The clamped values `sanitize` produced read back unchanged from any
      array that holds them. */
  lemma CleanReadsBack(m: Store, clean: Store, notice: string)
    requires forall k | k in clean :: k in m && m[k] == clean[k]
    requires ImageMaxSize in clean ==> clean[ImageMaxSize].PInt? && 10 <= clean[ImageMaxSize].i <= 10240
    requires NoticeDays in clean ==> clean[NoticeDays].PInt? && 1 <= clean[NoticeDays].i <= 60
    requires ImageTypes in clean ==> clean[ImageTypes].PList? && clean[ImageTypes].items != []
    requires ImageTypes in clean ==> Distinct(clean[ImageTypes].items)
    requires ImageTypes in clean ==> forall x :: x in clean[ImageTypes].items ==> x in AllowedTypes
    ensures ImageMaxSize in clean ==> GetAll(Some(m), notice).imageMaxSize == clean[ImageMaxSize].i
    ensures NoticeDays in clean ==> GetAll(Some(m), notice).noticeDays == clean[NoticeDays].i
    ensures ImageTypes in clean ==> GetAll(Some(m), notice).imageTypes == clean[ImageTypes].items
  {
    CleanTypesStable(clean);
    if ImageMaxSize in clean {
      assert Merged(Some(m), ImageMaxSize, notice) == clean[ImageMaxSize];
    }
    if NoticeDays in clean {
      assert Merged(Some(m), NoticeDays, notice) == clean[NoticeDays];
    }
    if ImageTypes in clean {
      assert Merged(Some(m), ImageTypes, notice) == clean[ImageTypes];
    }
  }

  /** The cleaned file-type list reads back unchanged. */
  lemma CleanTypesStable(clean: Store)
    requires ImageTypes in clean ==> clean[ImageTypes].PList? && Distinct(clean[ImageTypes].items)
    requires ImageTypes in clean ==> forall x :: x in clean[ImageTypes].items ==> x in AllowedTypes
    ensures ImageTypes in clean ==> NormalTypes(clean[ImageTypes]) == clean[ImageTypes].items
  {
    if ImageTypes in clean {
      AllowedTypesNormal();
      NormalTypesStable(clean[ImageTypes].items);
    }
  }

  /** De-duplicating and lower-casing a list that is already distinct and
      lower-case changes nothing. */
  lemma {:induction false} NormalTypesStable(xs: seq<string>)
    requires Distinct(xs) && forall x :: x in xs ==> Lowercase(x)
    ensures NormalTypes(PList(xs)) == xs
  {
    assert LowerAll(xs) == xs by {
      forall i | 0 <= i < |xs| ensures LowerAll(xs)[i] == xs[i] {
        assert xs[i] in xs;
        assert ToLower(xs[i]) == xs[i];
      }
    }
    DedupeDistinct(xs, []);
  }

  lemma {:induction false} DedupeDistinct<T(!new)>(xs: seq<T>, seen: seq<T>)
    requires Distinct(seen) && Distinct(xs)
    requires forall x :: x in xs ==> x !in seen
    ensures DedupeFrom(xs, seen) == seen + xs
    decreases |xs|
  {
    if xs != [] {
      assert xs[0] !in seen;
      assert Distinct(seen + [xs[0]]);
      assert forall x :: x in xs[1..] ==> x != xs[0] by {
        forall x | x in xs[1..] ensures x != xs[0] {
          var i :| 0 <= i < |xs[1..]| && xs[1..][i] == x;
          assert xs[i + 1] == x;
        }
      }
      DedupeDistinct(xs[1..], seen + [xs[0]]);
      assert seen + [xs[0]] + xs[1..] == seen + xs;
    }
  }

  /** Storing what `get_all` returned and reading it again gives the same
      settings: `get_all` is a normal form. */
  lemma GetAllIdempotent(saved: Option<Store>, notice: string)
    ensures GetAll(Some(AsStore(GetAll(saved, notice), saved)), notice) == GetAll(saved, notice)
  {
    ReadBack(GetAll(saved, notice), AsStore(GetAll(saved, notice), saved), notice);
  }

  /** Any normal configuration reads back as itself from an array that
      holds its fields. */
  lemma {:induction false} ReadBack(c: Config, m: Store, notice: string)
    requires Normal(c)
    requires forall k: Key | !k.Other? :: k in m && m[k] == Field(c, k)
    ensures GetAll(Some(m), notice) == c
  {
    MergedFields(c, m, notice);
    NormalTypesStable(c.imageTypes);
    GetAllOfSaved(m, notice);
  }

  /** Each known key of an array that holds a configuration's fields
      merges to that field. */
  lemma MergedFields(c: Config, m: Store, notice: string)
    requires forall k: Key | !k.Other? :: k in m && m[k] == Field(c, k)
    ensures var s := Some(m);
      Merged(s, GlobalPause, notice) == PBool(c.globalPause) &&
      Merged(s, AllowGuestPurchase, notice) == PBool(c.allowGuestPurchase) &&
      Merged(s, PurchaseNotice, notice) == c.notice &&
      Merged(s, AllowImageUpload, notice) == PBool(c.allowImageUpload) &&
      Merged(s, ImageMaxSize, notice) == PInt(c.imageMaxSize) &&
      Merged(s, ImageTypes, notice) == PList(c.imageTypes) &&
      Merged(s, ExpiryNotification, notice) == PBool(c.expiryNotification) &&
      Merged(s, NoticeDays, notice) == PInt(c.noticeDays) &&
      Merged(s, KeepData, notice) == PBool(c.keepData) &&
      Merged(s, AllowBalance, notice) == PBool(c.allowBalance) &&
      Merged(s, AllowGuestImage, notice) == PBool(c.allowGuestImage) &&
      Merged(s, LinkRedirect, notice) == PBool(c.linkRedirect)
  {
  }

  /** `get_all` on a saved array, field by field. */
  lemma GetAllOfSaved(m: Store, notice: string)
    ensures var s := Some(m);
      GetAll(s, notice) == Config(
        ToBool(Merged(s, GlobalPause, notice)), ToBool(Merged(s, AllowGuestPurchase, notice)),
        Merged(s, PurchaseNotice, notice), BoolOrTrue(Merged(s, AllowImageUpload, notice)),
        Max(1, ToInt(Merged(s, ImageMaxSize, notice))), NormalTypes(Merged(s, ImageTypes, notice)),
        ToBool(Merged(s, ExpiryNotification, notice)), Max(1, ToInt(Merged(s, NoticeDays, notice))),
        ToBool(Merged(s, KeepData, notice)), BoolOrTrue(Merged(s, AllowBalance, notice)),
        BoolOrTrue(Merged(s, AllowImageUpload, notice)) && BoolOrTrue(Merged(s, AllowGuestImage, notice)),
        BoolOrTrue(Merged(s, LinkRedirect, notice)))
  {
  }
}
