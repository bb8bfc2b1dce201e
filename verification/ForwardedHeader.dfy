/** Two readers of the Forwarded header (section 4 of RFC 7239): a strict one for
the Hub's own public address and a permissive one for origin checks. */
module ForwardedHeader {
  import opened Wrappers
  import opened Text

  /** U+017F, which Go's case folding puts together with `s`. */
  const LONG_S := '\U{017F}'

  // ----- Splitting -----

  /** Go's `strings.Split` for a one-character separator. */
  function Split(s: string, sep: char): (parts: seq<string>)
    ensures parts != []
  {
    if s == "" then [""]
    else
      var rest := Split(s[1..], sep);
      if s[0] == sep then [""] + rest else [[s[0]] + rest[0]] + rest[1..]
  }

  /** Go's `strings.Cut` at `=`. */
  function Cut(part: string): Option<(string, string)> {
    if part == "" then None
    else if part[0] == '=' then Some(("", part[1..]))
    else
      match Cut(part[1..])
      case None => None
      case Some((key, value)) => Some(([part[0]] + key, value))
  }

  // ----- Keys -----

  predicate LowersTo(key: string, name: string) {
    ToLower(key) == name
  }

  /** `strings.EqualFold` against `proto` or `host`: of their letters only `s` has a partner outside ASCII. */
  predicate FoldsTo(key: string, name: string) {
    && |key| == |name|
    && forall i :: 0 <= i < |name| ==> LowerChar(key[i]) == name[i] || (key[i] == LONG_S && name[i] == 's')
  }

  const PROTO := "proto"
  const HOST := "host"

  // ----- Values -----

  /** `strictForwardedOriginValue` */
  function StrictValue(raw: string): Option<string> {
    var value := TrimSpace(raw);
    if value == "" then None
    else if value[0] == '"' then
      if |value| < 2 || value[|value| - 1] != '"' then None
      else
        var inner := value[1..|value| - 1];
        if inner == "" || '\\' in inner || '"' in inner then None else Some(inner)
    else if '"' in value then None
    else Some(value)
  }

  function TrimQuotes(s: string): string {
    if s != "" && s[0] == '"' then TrimQuotes(s[1..])
    else if s != "" && s[|s| - 1] == '"' then TrimQuotes(s[..|s| - 1])
    else s
  }

  function PermissiveValue(raw: string): string {
    TrimQuotes(TrimSpace(raw))
  }

  // ----- The strict reader -----

  datatype Fields = Fields(proto: Option<string>, host: Option<string>)

  /** One part: a repeated or malformed field, or a part without `=`, fails the whole header. */
  function StrictPart(f: Fields, part: string): Option<Fields> {
    match Cut(part)
    case None => None
    case Some((key, value)) =>
      if LowersTo(TrimSpace(key), PROTO) then
        if f.proto.Some? || StrictValue(value).None? then None else Some(f.(proto := StrictValue(value)))
      else if LowersTo(TrimSpace(key), HOST) then
        if f.host.Some? || StrictValue(value).None? then None else Some(f.(host := StrictValue(value)))
      else Some(f)
  }

  function StrictParts(f: Fields, parts: seq<string>): Option<Fields>
    decreases |parts|
  {
    if parts == [] then Some(f)
    else
      var f' := StrictPart(f, parts[0]);
      if f'.None? then None else StrictParts(f'.value, parts[1..])
  }

  /** The proto and host the strict reader extracts, before they are sanitized. */
  function StrictFields(forwarded: string): Option<(string, string)> {
    var f := StrictParts(Fields(None, None), Split(TrimSpace(forwarded), ';'));
    if f.Some? && f.value.proto.Some? && f.value.host.Some?
    then Some((f.value.proto.value, f.value.host.value)) else None
  }

  /** `strictForwardedRequestOrigin` up to the call that sanitizes what it found. */
  method StrictForwardedOrigin(forwarded: string) returns (found: Option<(string, string)>)
    ensures found == StrictFields(forwarded)
  {
    var parts := Split(TrimSpace(forwarded), ';');
    var rawScheme, rawHost := "", "";
    var sawScheme, sawHost := false, false;
    ghost var f := Fields(None, None);
    var i := 0;
    assert parts[0..] == parts;
    while i < |parts|
      invariant 0 <= i <= |parts|
      invariant f == Fields(if sawScheme then Some(rawScheme) else None, if sawHost then Some(rawHost) else None)
      invariant StrictParts(Fields(None, None), parts) == StrictParts(f, parts[i..])
    {
      assert parts[i..][1..] == parts[i + 1..];
      var cut := Cut(parts[i]);
      if cut.None? {
        return None;
      }
      var (key, value) := cut.value;
      if LowersTo(TrimSpace(key), PROTO) {
        if sawScheme {
          return None;
        }
        var v := StrictValue(value);
        if v.None? {
          return None;
        }
        rawScheme, sawScheme := v.value, true;
        f := f.(proto := v);
      } else if LowersTo(TrimSpace(key), HOST) {
        if sawHost {
          return None;
        }
        var v := StrictValue(value);
        if v.None? {
          return None;
        }
        rawHost, sawHost := v.value, true;
        f := f.(host := v);
      }
      i := i + 1;
    }
    if !sawScheme || !sawHost {
      return None;
    }
    return Some((rawScheme, rawHost));
  }

  // ----- The permissive readers -----

  predicate PermissiveMatch(part: string, name: string) {
    Cut(part).Some? && FoldsTo(TrimSpace(Cut(part).value.0), name)
  }

  /** The value of the first part whose key matches, if any. */
  function FirstMatch(parts: seq<string>, name: string): Option<string> {
    if parts == [] then None
    else if PermissiveMatch(parts[0], name) then Some(PermissiveValue(Cut(parts[0]).value.1))
    else FirstMatch(parts[1..], name)
  }

  function FirstEntry(entries: seq<string>, name: string): string {
    if entries == [] then ""
    else
      match FirstMatch(Split(entries[0], ';'), name)
      case Some(value) => value
      case None => FirstEntry(entries[1..], name)
  }

  /** `forwardedHeaderHost` and `forwardedHeaderProto`, for the name given. */
  function PermissiveField(raw: string, name: string): string {
    FirstEntry(Split(raw, ','), name)
  }
}
