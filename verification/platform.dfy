/**
 * The platform types a PhoneAccount holds, taken as plain values:
 * Java's 32-bit int, android.content.ComponentName and android.net.Uri.
 * Their own implementations are not part of this model.
 */
module Platform {

  /** Java's `int`: a signed 32-bit integer. */
  newtype int32 = x: int | -0x8000_0000 <= x < 0x8000_0000

  /** A component name: the package that owns a service and the class that implements it. */
  datatype ComponentName = ComponentName(packageName: string, className: string)

  /**
   * A URI, held as its string form. `Parse` and `ToString` are taken to be
   * inverse to each other, which is how the account uses them.
   */
  datatype Uri = Uri(text: string)

  /** The string form of a URI (`Uri.toString`). */
  function ToString(u: Uri): string
  {
    u.text
  }

  /** Builds a URI from its string form (`Uri.parse`); it never fails. */
  function Parse(s: string): (u: Uri)
    ensures ToString(u) == s
  {
    Uri(s)
  }

  /** Parsing the string form of a URI gives that URI back. */
  lemma ParseToString(u: Uri)
    ensures Parse(ToString(u)) == u
  {
  }
}
