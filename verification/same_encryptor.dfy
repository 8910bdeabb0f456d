/** Whether two optional encryptors are the same: both absent is the same, one
    absent is different, and two present ones are the same when their types
    match and they are equal. */
module SameEncryptorComparator {
  import opened Wrappers

  /** An encrypt algorithm: its type name and its configured properties,
      compared structurally. */
  datatype Encryptor = Encryptor(typ: string, props: map<string, string>)

  /** Compares two encryptors, None standing for an absent (null) one. */
  function IsSame(encryptor1: Option<Encryptor>, encryptor2: Option<Encryptor>): (same: bool)
    // with structural equality the comparison is exactly equality of the optional values
    ensures same <==> encryptor1 == encryptor2
    ensures encryptor1.None? && encryptor2.None? ==> same
    ensures encryptor1.None? != encryptor2.None? ==> !same
  {
    if encryptor1.None? && encryptor2.None? then true
    else if encryptor1.Some? && encryptor2.Some? then
      encryptor1.value.typ == encryptor2.value.typ && encryptor1.value == encryptor2.value
    else false
  }

  /** Encryptors of different types are never the same, whatever their properties. */
  lemma DifferentTypesDiffer(a: Encryptor, b: Encryptor)
    requires a.typ != b.typ
    ensures !IsSame(Some(a), Some(b))
  {
  }

  /** Every encryptor, and the absent one, is the same as itself. */
  lemma IsSameReflexive(e: Option<Encryptor>)
    ensures IsSame(e, e)
  {
  }

  /** The argument order does not matter. */
  lemma IsSameSymmetric(a: Option<Encryptor>, b: Option<Encryptor>)
    ensures IsSame(a, b) == IsSame(b, a)
  {
  }

  /** Two encryptors the same as a third are the same as each other. */
  lemma IsSameTransitive(a: Option<Encryptor>, b: Option<Encryptor>, c: Option<Encryptor>)
    requires IsSame(a, b) && IsSame(b, c)
    ensures IsSame(a, c)
  {
  }
}
