# PhoneAccount: a verified model of the account record and its parcel encoding

`android.telecomm.PhoneAccount` describes one account that the telephony system can place calls
with. The account is the component name of the service that owns it, an id that service chose, an
optional handle (a URI such as a phone number), three resource ids for a label, a short
description and an icon, and two flags (enabled, system default). The record is immutable. It is
`Parcelable`: `writeToParcel` appends its eight fields to an `android.os.Parcel`, and a private
constructor reached through `CREATOR` reads them back in the same order.

The model, in four modules:

- `Wrappers` (`wrappers.dfy`): `Option` (a Java reference that may be null) and `Result`.
- `Platform` (`platform.dfy`): the library types the record holds, taken as plain values. This is
  Java's 32-bit `int` as the newtype `int32`, `ComponentName` as a package/class pair, and `Uri` as
  its string form. `Parse` and `ToString` are inverse to each other.
- `Parcels` (`parcel.dfy`): an abstract `Parcel` class. Its `items` field is the sequence of values
  written so far, and its `pos` field is the read cursor. Each value is tagged with the kind of
  write that produced it (`IntV`, `StrV`, `CompV`). Writes append and leave the cursor alone.
  Reads return the value at the cursor and move past it. A read that finds no value of the expected
  kind returns `None` and leaves the cursor where it was.
- `Telecomm` (`phone_account.dfy`): the record as the datatype `PhoneAccount`, with its getters
  and `DescribeContents`. It also holds the public constructor (`NewPhoneAccount`), the
  specification functions `Encode` and `Decode`, and the two parcel operations. `WriteToParcel` is
  a method that changes the parcel. `FromParcel` is a method that moves the parcel's cursor. The
  laws of the encoding come last.

The wire layout, from the account's first field on: the component, the id, the handle string
(`""` when there is no handle), the label, short-description and icon resource ids, then the
enabled and system-default flags. A flag is written as 1 or 0. On reading, a flag is true only
when its int is exactly 1. An empty handle string reads as no handle; any other string is parsed.

The model keeps two behaviours of the code:

- The public constructor stores 0 for all three resource ids and drops the label and short
  description it is given.
- `Uri.parse` does not fail, so decoding a handle cannot fail. Decoding fails only when a field
  is missing or of another kind (`MissingField(k)`). That failure belongs to this model's typed
  parcel: the real parcel would throw or hand back whatever bytes are there.

## Model

| member | source | states |
|---|---|---|
| `Telecomm.NewPhoneAccount` | telecomm/java/android/telecomm/PhoneAccount.java:51-67 | the getters return the component name, id, handle and both flags exactly as passed. All three resource ids are 0, whatever label and short description are passed |
| `Telecomm.NewPhoneAccountIgnoresText` | telecomm/java/android/telecomm/PhoneAccount.java:55-56 | two calls that differ only in label and short description build the same account |
| `Telecomm.PhoneAccount.DescribeContents` | telecomm/java/android/telecomm/PhoneAccount.java:164-166 | the account reports no special contents (0) |
| `Telecomm.PhoneAccount.WriteToParcel` | telecomm/java/android/telecomm/PhoneAccount.java:168-177 | the parcel's values afterwards are the old values followed by exactly `Encode(this)`. Nothing already written changes, and neither does the read cursor |
| `Telecomm.Encode` | telecomm/java/android/telecomm/PhoneAccount.java:169-176 | eight fields in the order component, id, handle string, label id, description id, icon id, enabled, default. The handle field is `""` exactly when there is no handle or its string form is empty, and a present handle is written as its string form. Each flag is 0 or 1, and is 1 exactly when the flag is set |
| `Telecomm.FlagCode` | telecomm/java/android/telecomm/PhoneAccount.java:175-176 | a flag is written as 0 or 1, and reading it back gives the flag |
| `Telecomm.HandleString` | telecomm/java/android/telecomm/PhoneAccount.java:171 | the written handle is `""` exactly when there is no handle or its string form is empty. Otherwise it is the handle's string form |
| `Telecomm.HandleOf` | telecomm/java/android/telecomm/PhoneAccount.java:193-194 | a zero-length string gives no handle. Any other string gives a handle whose string form is that string |
| `Telecomm.HandleRoundTrip` | telecomm/java/android/telecomm/PhoneAccount.java:171-194 | reading a written handle gives it back, except that a present handle with an empty string form comes back as none |
| `Telecomm.LayoutIsAllFieldsFit` | telecomm/java/android/telecomm/PhoneAccount.java:190-200 | the eight-field layout holds exactly when each field the decoder reads is present with the kind it reads |
| `Telecomm.Decode` | telecomm/java/android/telecomm/PhoneAccount.java:190-200 | decoding succeeds exactly when the eight fields are present with the right kinds, in write order. The handle is none exactly when its string is empty. Each flag is true exactly when its int equals 1, so 2 or -1 read as false. Resource ids are taken as read. On failure, the error names the first field that is missing or of another kind |
| `Telecomm.FromParcel` | telecomm/java/android/telecomm/PhoneAccount.java:179-200 | the result is `Decode` of the parcel at its cursor, and the parcel's values do not change. The cursor advances by 8 on success, and on failure by the number of fields read before the failing one |
| `Telecomm.DecodeEncoded` | telecomm/java/android/telecomm/PhoneAccount.java:168-200 | wherever it sits in a parcel, an encoded account decodes to itself with its handle passed through the handle coding |
| `Telecomm.RoundTrip` | telecomm/java/android/telecomm/PhoneAccount.java:168-200 | an account whose handle, if present, has a non-empty string form decodes back unchanged from any position in a parcel |
| `Telecomm.RoundTripDropsEmptyHandle` | telecomm/java/android/telecomm/PhoneAccount.java:171-194 | a present handle whose string form is empty decodes as no handle, so that account does not survive the round trip |
| `Telecomm.EncodeInjective` | telecomm/java/android/telecomm/PhoneAccount.java:168-177 | if neither account has an empty handle string, two accounts have the same encoding exactly when they are equal |
| `Telecomm.ReencodeDecoded` | telecomm/java/android/telecomm/PhoneAccount.java:168-199 | re-encoding a decoded account reproduces the eight fields read exactly when both flag ints were 0 or 1 |
| `Parcels.Parcel.WriteParcelable` | telecomm/java/android/telecomm/PhoneAccount.java:169 | appends the component name and leaves earlier values and the cursor unchanged |
| `Parcels.Parcel.WriteString` | telecomm/java/android/telecomm/PhoneAccount.java:170-171 | appends the string and leaves earlier values and the cursor unchanged |
| `Parcels.Parcel.WriteInt` | telecomm/java/android/telecomm/PhoneAccount.java:172-176 | appends the int and leaves earlier values and the cursor unchanged |
| `Parcels.Parcel.ReadParcelable` | telecomm/java/android/telecomm/PhoneAccount.java:191 | returns the component name at the cursor and moves past it, or returns none and stays put |
| `Parcels.Parcel.ReadString` | telecomm/java/android/telecomm/PhoneAccount.java:192-193 | returns the string at the cursor and moves past it, or returns none and stays put |
| `Parcels.Parcel.ReadInt` | telecomm/java/android/telecomm/PhoneAccount.java:195-199 | returns the int at the cursor and moves past it, or returns none and stays put |

The getters `GetComponentName`, `GetId`, `GetHandle`, `IsEnabled` and `IsSystemDefault`
(telecomm/java/android/telecomm/PhoneAccount.java:75-99, 151-162) are member functions of
`PhoneAccount` that return the stored field. What they promise is stated through
`NewPhoneAccount`'s contract. `FlagOf` (telecomm/java/android/telecomm/PhoneAccount.java:198-199)
reads a flag int as true exactly when it equals 1; what that means for decoding is stated in
`Decode`'s contract, and `FlagCode`'s contract states that it reads back what is written.

## Left out

- `getLabel`, `getShortDescription`, both `getIcon` overloads and the private `getString` and
  `getIcon` helpers. They resolve resource ids through another package's resources and load
  drawables. Those calls go into platform code that is not part of this model, and their
  null-on-miss results depend entirely on it.
- Logging through `Rlog`, and the `NO_DENSITY` and `DisplayMetrics` densities, which only icon
  loading uses.
- `CREATOR.newArray`: array allocation only. `createFromParcel` is modelled by `FromParcel`.
- The internals of `Uri.parse`, `Uri.toString` and `ComponentName`'s own parcel encoding. The flags
  passed to `writeParcelable` and the class loader given to `readParcelable` are two of those
  internals. The component name is stored and returned as one value.
- Null values for the id and the component name. Java allows both, but the model holds them as
  plain values, so the null string and null parcelable encodings are not modelled.
- WriteToParcel, together with `Parcel.WriteInt`, `Parcel.WriteString` and `Parcel.WriteParcelable`,
  always appends at the end of the modelled buffer and never moves the read cursor. A real
  `android.os.Parcel` has one data position for reads and writes: a write goes to that position,
  overwrites whatever is there when it lies before the end of the data, and moves it forward,
  and readers rewind with `setDataPosition`. The model does not capture that shared position or
  overwriting at it. Its promises that earlier values and the cursor are left unchanged hold for
  the modelled buffer only.
- The byte-level layout of a real parcel (length prefixes, padding, reading past the end as 0).
  The modelled parcel is a sequence of tagged values.
