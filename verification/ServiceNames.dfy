/** internal/system: the unit names that may be stored, allowlisted and handed to systemctl. */
module ServiceNames {
  const MAX_NAME_LENGTH: nat := 64

  predicate NameChar(c: char)
  {
    'a' <= c <= 'z' || 'A' <= c <= 'Z' || '0' <= c <= '9' || c == '-' || c == '.' || c == '_'
  }

  /** ValidateServiceName accepts the name. */
  predicate ValidServiceName(name: string)
  {
    1 <= |name| <= MAX_NAME_LENGTH && forall i | 0 <= i < |name| :: NameChar(name[i])
  }
}
