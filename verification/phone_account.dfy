/**
 * android.telecomm.PhoneAccount: an immutable description of an account
 * (a line of service or way of placing calls) and its parcel encoding.
 */
module Telecomm {
  import opened Wrappers
  import opened Platform
  import opened Parcels

  /** The number of parcel fields one account occupies. */
  const FIELD_COUNT: nat := 8

  /**
   * The account's eight final fields. A null handle is `None`; the three
   * resource ids point into the owning package's resource table.
   */
  datatype PhoneAccount = PhoneAccount(
    componentName: ComponentName,
    id: string,
    handle: Option<Uri>,
    labelResId: int32,
    shortDescriptionResId: int32,
    iconResId: int32,
    isEnabled: bool,
    isSystemDefault: bool)
  {
    /** The service responsible for placing calls with this account. */
    function GetComponentName(): ComponentName { componentName }

    /** The identifier the owning service gave this account. */
    function GetId(): string { id }

    /** The address calls from this account appear to come from, if any. */
    function GetHandle(): Option<Uri> { handle }

    /** Whether the account may be used. */
    predicate IsEnabled() { isEnabled }

    /** Whether the account is the system default. */
    predicate IsSystemDefault() { isSystemDefault }

    /** Parcelable.describeContents: the account holds no file descriptors. */
    function DescribeContents(): (r: int32)
      ensures r == 0
    {
      0
    }

    /**
     * Parcelable.writeToParcel: appends the account's fields to `out`,
     * leaving what is already there and the read cursor alone.
     */
    method WriteToParcel(out: Parcel, flags: int32)
      modifies out
      ensures out.items == old(out.items) + Encode(this)
      ensures out.pos == old(out.pos)
    {
      out.WriteParcelable(componentName, flags);
      out.WriteString(id);
      out.WriteString(HandleString(handle));
      out.WriteInt(labelResId);
      out.WriteInt(shortDescriptionResId);
      out.WriteInt(iconResId);
      out.WriteInt(FlagCode(isEnabled));
      out.WriteInt(FlagCode(isSystemDefault));
    }
  }

  /**
   * The public constructor. The label and short description are accepted
   * but dropped: all three resource ids are stored as 0.
   */
  function NewPhoneAccount(
    componentName: ComponentName,
    id: string,
    handle: Option<Uri>,
    labelText: string,
    shortDescription: string,
    isEnabled: bool,
    isSystemDefault: bool): (a: PhoneAccount)
    ensures a.GetComponentName() == componentName && a.GetId() == id && a.GetHandle() == handle
    ensures a.IsEnabled() == isEnabled && a.IsSystemDefault() == isSystemDefault
    ensures a.labelResId == 0 && a.shortDescriptionResId == 0 && a.iconResId == 0
  {
    PhoneAccount(componentName, id, handle, 0, 0, 0, isEnabled, isSystemDefault)
  }

  /** The label and short description given to the constructor make no difference. */
  lemma NewPhoneAccountIgnoresText(
    componentName: ComponentName, id: string, handle: Option<Uri>,
    labelText1: string, shortDescription1: string,
    labelText2: string, shortDescription2: string,
    isEnabled: bool, isSystemDefault: bool)
    ensures NewPhoneAccount(componentName, id, handle, labelText1, shortDescription1, isEnabled, isSystemDefault)
         == NewPhoneAccount(componentName, id, handle, labelText2, shortDescription2, isEnabled, isSystemDefault)
  {
  }

  // ---------------------------------------------------------------------
  // Field codings

  /** How a boolean is written: 1 for true, 0 for false. */
  function FlagCode(b: bool): (v: int32)
    ensures v == 0 || v == 1
    ensures FlagOf(v) == b
  {
    if b then 1 else 0
  }

  /** How a boolean is read back: only 1 is true. */
  function FlagOf(v: int32): bool
  {
    v == 1
  }

  /** How the handle is written: its string form, or "" when there is none. */
  function HandleString(h: Option<Uri>): (s: string)
    ensures s == "" <==> h.None? || ToString(h.value) == ""
    ensures h.Some? ==> s == ToString(h.value)
  {
    match h
    case None => ""
    case Some(u) => ToString(u)
  }

  /** How the handle is read back: "" means none, anything else is parsed. */
  function HandleOf(s: string): (h: Option<Uri>)
    ensures h.None? <==> |s| == 0
    ensures h.Some? ==> ToString(h.value) == s
  {
    if |s| > 0 then Some(Parse(s)) else None
  }

  /**
   * Reading a written handle gives it back, except a present handle whose
   * string form is empty, which reads back as none.
   */
  lemma HandleRoundTrip(h: Option<Uri>)
    ensures HandleOf(HandleString(h)) == if h.Some? && ToString(h.value) == "" then None else h
  {
  }

  // ---------------------------------------------------------------------
  // The wire layout

  /**
   * Whether field `k` of an account starting at `p` is present with the
   * right kind: field 0 is the component, fields 1 and 2 are the id and
   * the handle string, fields 3 to 7 are ints.
   */
  predicate Fits(s: seq<Value>, p: nat, k: nat)
  {
    p + k < |s| &&
    if k == 0 then s[p + k].CompV?
    else if k <= 2 then s[p + k].StrV?
    else s[p + k].IntV?
  }

  /**
   * Whether `s` holds all eight fields of an account from position `p`:
   * a component, two strings and five ints. This is the same layout as
   * "every field `Fits`" (LayoutIsAllFieldsFit), written out field by field
   * so that a contract assuming it may apply the destructors `s[p].c`,
   * `s[p + 1].s`, ... directly; `Fits` is kept for naming the one field at
   * which a decode stops.
   */
  predicate Layout(s: seq<Value>, p: nat)
  {
    && p + FIELD_COUNT <= |s|
    && s[p].CompV? && s[p + 1].StrV? && s[p + 2].StrV?
    && s[p + 3].IntV? && s[p + 4].IntV? && s[p + 5].IntV? && s[p + 6].IntV? && s[p + 7].IntV?
  }

  /** The layout is exactly "every one of the eight fields fits". */
  lemma LayoutIsAllFieldsFit(s: seq<Value>, p: nat)
    ensures Layout(s, p) <==> forall k :: 0 <= k < FIELD_COUNT ==> Fits(s, p, k)
  {
    if forall k :: 0 <= k < FIELD_COUNT ==> Fits(s, p, k) {
      assert Fits(s, p, 0) && Fits(s, p, 1) && Fits(s, p, 2) && Fits(s, p, 3);
      assert Fits(s, p, 4) && Fits(s, p, 5) && Fits(s, p, 6) && Fits(s, p, 7);
    }
  }

  /** Why decoding fails: field `index` is missing or of another kind. */
  datatype DecodeError = MissingField(index: nat)

  /** The values writeToParcel appends for `a`, in order. */
  function Encode(a: PhoneAccount): (r: seq<Value>)
    ensures |r| == FIELD_COUNT && Layout(r, 0)
    ensures r[0].c == a.componentName && r[1].s == a.id
    ensures r[2].s == "" <==> a.handle.None? || ToString(a.handle.value) == ""
    ensures a.handle.Some? ==> r[2].s == ToString(a.handle.value)
    ensures r[3].i == a.labelResId && r[4].i == a.shortDescriptionResId && r[5].i == a.iconResId
    ensures (r[6].i == 0 || r[6].i == 1) && (r[6].i == 1 <==> a.isEnabled)
    ensures (r[7].i == 0 || r[7].i == 1) && (r[7].i == 1 <==> a.isSystemDefault)
  {
    [ CompV(a.componentName),
      StrV(a.id),
      StrV(HandleString(a.handle)),
      IntV(a.labelResId),
      IntV(a.shortDescriptionResId),
      IntV(a.iconResId),
      IntV(FlagCode(a.isEnabled)),
      IntV(FlagCode(a.isSystemDefault)) ]
  }

  /**
   * What the parcel constructor reads from `s` starting at `p`: the eight
   * fields in the order they are written, failing at the first one that is
   * missing or of another kind.
   */
  function Decode(s: seq<Value>, p: nat): (r: Result<PhoneAccount, DecodeError>)
    ensures r.Success? <==> Layout(s, p)
    ensures r.Success? ==>
      && r.value.componentName == s[p].c
      && r.value.id == s[p + 1].s
      && (r.value.handle.None? <==> s[p + 2].s == "")
      && (r.value.handle.Some? ==> ToString(r.value.handle.value) == s[p + 2].s)
      && r.value.labelResId == s[p + 3].i
      && r.value.shortDescriptionResId == s[p + 4].i
      && r.value.iconResId == s[p + 5].i
      && (r.value.isEnabled <==> s[p + 6].i == 1)
      && (r.value.isSystemDefault <==> s[p + 7].i == 1)
    ensures r.Failure? ==>
      && r.error.index < FIELD_COUNT
      && (forall k :: 0 <= k < r.error.index ==> Fits(s, p, k))
      && !Fits(s, p, r.error.index)
  {
    match CompAt(s, p)
    case None => Failure(MissingField(0))
    case Some(componentName) =>
    match StrAt(s, p + 1)
    case None => Failure(MissingField(1))
    case Some(id) =>
    match StrAt(s, p + 2)
    case None => Failure(MissingField(2))
    case Some(uriString) =>
    match IntAt(s, p + 3)
    case None => Failure(MissingField(3))
    case Some(labelResId) =>
    match IntAt(s, p + 4)
    case None => Failure(MissingField(4))
    case Some(shortDescriptionResId) =>
    match IntAt(s, p + 5)
    case None => Failure(MissingField(5))
    case Some(iconResId) =>
    match IntAt(s, p + 6)
    case None => Failure(MissingField(6))
    case Some(enabled) =>
    match IntAt(s, p + 7)
    case None => Failure(MissingField(7))
    case Some(systemDefault) =>
    Success(PhoneAccount(componentName, id, HandleOf(uriString),
                         labelResId, shortDescriptionResId, iconResId,
                         FlagOf(enabled), FlagOf(systemDefault)))
  }

  /** How many fields a decode took off the parcel before it succeeded or stopped. */
  function FieldsRead(r: Result<PhoneAccount, DecodeError>): nat
  {
    if r.Success? then FIELD_COUNT else r.error.index
  }

  /**
   * The private parcel constructor, as reached through CREATOR.createFromParcel:
   * reads an account at the cursor. On success the cursor has moved past
   * all eight fields; on failure it has moved past the fields read before
   * the one that was missing.
   */
  method FromParcel(input: Parcel) returns (r: Result<PhoneAccount, DecodeError>)
    modifies input
    ensures input.items == old(input.items)
    ensures r == Decode(old(input.items), old(input.pos))
    ensures input.pos == old(input.pos) + FieldsRead(r)
  {
    var componentName := input.ReadParcelable();
    if componentName.None? { return Failure(MissingField(0)); }
    var id := input.ReadString();
    if id.None? { return Failure(MissingField(1)); }
    var uriString := input.ReadString();
    if uriString.None? { return Failure(MissingField(2)); }
    var handle := if |uriString.value| > 0 then Some(Parse(uriString.value)) else None;
    var labelResId := input.ReadInt();
    if labelResId.None? { return Failure(MissingField(3)); }
    var shortDescriptionResId := input.ReadInt();
    if shortDescriptionResId.None? { return Failure(MissingField(4)); }
    var iconResId := input.ReadInt();
    if iconResId.None? { return Failure(MissingField(5)); }
    var enabled := input.ReadInt();
    if enabled.None? { return Failure(MissingField(6)); }
    var systemDefault := input.ReadInt();
    if systemDefault.None? { return Failure(MissingField(7)); }
    r := Success(PhoneAccount(componentName.value, id.value, handle,
                              labelResId.value, shortDescriptionResId.value, iconResId.value,
                              FlagOf(enabled.value), FlagOf(systemDefault.value)));
  }

  // ---------------------------------------------------------------------
  // Laws of the encoding

  /**
   * Whatever precedes or follows it in the parcel, an encoded account
   * decodes to the account with its handle passed through the handle coding.
   */
  lemma DecodeEncoded(a: PhoneAccount, before: seq<Value>, after: seq<Value>)
    ensures Decode(before + Encode(a) + after, |before|)
         == Success(a.(handle := HandleOf(HandleString(a.handle))))
  {
  }

  /**
   * Round trip: an account written to a parcel is read back unchanged,
   * provided a present handle has a non-empty string form.
   */
  lemma RoundTrip(a: PhoneAccount, before: seq<Value>, after: seq<Value>)
    requires a.handle.Some? ==> ToString(a.handle.value) != ""
    ensures Decode(before + Encode(a) + after, |before|) == Success(a)
  {
  }

  /**
   * The one loss in the round trip: a present handle whose string form is
   * empty is written as the "no handle" sentinel and reads back as none.
   */
  lemma RoundTripDropsEmptyHandle(a: PhoneAccount, before: seq<Value>, after: seq<Value>)
    requires a.handle.Some? && ToString(a.handle.value) == ""
    ensures Decode(before + Encode(a) + after, |before|) == Success(a.(handle := None))
    ensures a.(handle := None) != a
  {
  }

  /** Two accounts with the same encoding are the same account, when neither has an empty handle string. */
  lemma EncodeInjective(a: PhoneAccount, b: PhoneAccount)
    requires a.handle.Some? ==> ToString(a.handle.value) != ""
    requires b.handle.Some? ==> ToString(b.handle.value) != ""
    ensures Encode(a) == Encode(b) <==> a == b
  {
  }

  /**
   * Re-encoding a decoded account reproduces the eight fields read exactly
   * when both flags were stored as 0 or 1; any other flag value reads as
   * false and is written back as 0.
   */
  lemma ReencodeDecoded(s: seq<Value>, p: nat, a: PhoneAccount)
    requires Decode(s, p) == Success(a)
    ensures Encode(a) == s[p..p + FIELD_COUNT]
        <==> (s[p + 6].i == 0 || s[p + 6].i == 1) && (s[p + 7].i == 0 || s[p + 7].i == 1)
  {
  }
}
