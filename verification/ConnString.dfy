/**
 libpq connection strings, as pkg/connstring prints, tokenizes and redacts them.

 A keyword string is cut into `Param`s that keep every character, so that the redacted string can
 be described as the same parameters with some of their values replaced.
 */
module ConnString {
  import opened Text

  const STARS := "********"

  predicate IsConnSpace(c: char) {
    c == ' ' || c == '\t' || c == '\n' || c == '\r' || c as int == 12 || c as int == 11
  }

  predicate IsKeyChar(c: char) { c != '=' && !IsConnSpace(c) }

  predicate HasUriPrefix(s: string) { "postgresql://" <= s || "postgres://" <= s }

  predicate IsPasswordKey(key: string) {
    Lower(key) == "password" || Lower(key) == "sslpassword"
  }

  /** libpq's recognized_connection_string. */
  predicate LooksLikeConnString(s: string) { HasUriPrefix(s) || Contains(s, "=") }

  // Values

  /** A value as read: how many characters it takes, and what they stand for. */
  datatype Value = Value(len: nat, decoded: string)

  /** Reads a quoted value after its opening quote, up to and including the closing one. */
  function QuotedValue(s: string): (r: Option<Value>)
    ensures r.Some? ==> 0 < r.value.len <= |s| && |r.value.decoded| < r.value.len
  {
    if s == "" then None
    else if s[0] == '\\' then
      if |s| == 1 then None
      else match QuotedValue(s[2..])
        case None => None
        case Some(v) => Some(Value(2 + v.len, [s[1]] + v.decoded))
    else if s[0] == '\'' then Some(Value(1, ""))
    else match QuotedValue(s[1..])
      case None => None
      case Some(v) => Some(Value(1 + v.len, [s[0]] + v.decoded))
  }

  /** Reads an unquoted value, which ends at whitespace. */
  function BareValue(s: string): (v: Value)
    ensures v.len <= |s| && |v.decoded| <= v.len
    ensures v.len < |s| ==> IsConnSpace(s[v.len])
  {
    if s == "" || IsConnSpace(s[0]) then Value(0, "")
    else if s[0] == '\\' then
      if |s| == 1 then Value(1, "")
      else var v := BareValue(s[2..]); Value(2 + v.len, [s[1]] + v.decoded)
    else var v := BareValue(s[1..]); Value(1 + v.len, [s[0]] + v.decoded)
  }

  predicate IsQuoted(s: string) { "'" <= s }

  function ScanValue(s: string): (r: Option<Value>)
    ensures r.Some? ==> r.value.len <= |s| && |r.value.decoded| <= r.value.len
    ensures r.Some? && !IsQuoted(s) && r.value.len < |s| ==> IsConnSpace(s[r.value.len])
  {
    if IsQuoted(s) then
      match QuotedValue(s[1..])
      case None => None
      case Some(v) => Some(Value(1 + v.len, v.decoded))
    else Some(BareValue(s))
  }

  // Parameters

  /** One `key = value`, with the whitespace around it; `value` is what `raw` stands for. */
  datatype Param = Param(lead: string, key: string, pre: string, post: string, raw: string, value: string)
  {
    function Head(): string { lead + key + pre + "=" + post }

    function Text(): string { Head() + raw }
  }

  datatype OneParam = End | Bad | Got(param: Param, rest: string)

  /** Reads the first parameter of `s`. */
  function ParseOne(s: string): (r: OneParam)
    ensures r.Got? ==> |r.rest| < |s| && |r.param.value| < |s|
  {
    var s1 := DropRun(IsConnSpace, s);
    if s1 == "" then End
    else
      var s2 := DropRun(IsKeyChar, s1);
      var s3 := DropRun(IsConnSpace, s2);
      if !("=" <= s3) then Bad
      else
        var s4 := DropRun(IsConnSpace, s3[1..]);
        match ScanValue(s4)
        case None => Bad
        case Some(v) =>
          Got(Param(TakeRun(IsConnSpace, s), TakeRun(IsKeyChar, s1), TakeRun(IsConnSpace, s2),
                    TakeRun(IsConnSpace, s3[1..]), s4[..v.len], v.decoded), s4[v.len..])
  }

  datatype Parsed = Malformed | Pairs(params: seq<Param>, trail: string)

  /** Tokenizes a keyword string, as libpq's conninfo_parse does. */
  function Parse(s: string): (r: Parsed)
    ensures r.Pairs? ==> MaxValue(r.params) <= |s|
    decreases |s|
  {
    match ParseOne(s)
    case End => Pairs([], s)
    case Bad => Malformed
    case Got(p, rest) =>
      match Parse(rest)
      case Malformed => Malformed
      case Pairs(ps, trail) => Pairs([p] + ps, trail)
  }

  function MaxValue(ps: seq<Param>): nat {
    if ps == [] then 0
    else var m := MaxValue(ps[1..]); if m <= |ps[0].value| then |ps[0].value| + 1 else m
  }

  // Redaction

  /** The string with every password value replaced. */
  function RedactPasswords(s: string): string
    decreases |s|, 2, 0
  {
    if HasUriPrefix(s) then RedactUri(s)
    else match Parse(s)
      case Malformed => STARS
      case Pairs(ps, trail) => Render(ps) + trail
  }

  function Render(ps: seq<Param>): string
    decreases MaxValue(ps), 1, |ps|
  {
    if ps == [] then "" else ps[0].Head() + NewRaw(ps[0]) + Render(ps[1..])
  }

  /** A dbname parameter whose value is itself a connection string. */
  predicate IsNested(p: Param) {
    !IsPasswordKey(p.key) && EqualFold(p.key, "dbname") && LooksLikeConnString(p.value)
  }

  /** What stands in the redacted string for the value of `p`. */
  function NewRaw(p: Param): string
    decreases |p.value| + 1, 0, 0
  {
    if IsPasswordKey(p.key) then STARS
    else if IsNested(p) then
      var inner := RedactPasswords(p.value);
      if inner != p.value then "'" + EscapeValue(inner) + "'" else p.raw
    else p.raw
  }

  /** A nested connection string that redaction changes. */
  predicate IsRewritten(p: Param) { IsNested(p) && RedactPasswords(p.value) != p.value }

  /** A nested connection string as it is put back. */
  function Requoted(value: string): string { "'" + EscapeValue(RedactPasswords(value)) + "'" }

  // URIs

  predicate NotUserEnd(c: char) { c != '@' && c != '/' }

  predicate NotAmp(c: char) { c != '&' }

  function UriPrefixLen(s: string): (n: nat)
    requires HasUriPrefix(s)
    ensures n <= |s|
  {
    if "postgresql://" <= s then 13 else 11
  }

  function RedactUri(s: string): string
    requires HasUriPrefix(s)
  {
    var n := UriPrefixLen(s);
    s[..n] + RedactAuthority(s[n..])
  }

  function RedactAuthority(rest: string): string {
    var at := Run(NotUserEnd, rest);
    if at < |rest| && rest[at] == '@' then RedactUserInfo(rest[..at]) + "@" + RedactHosts(rest[at + 1..])
    else RedactHosts(rest)
  }

  function RedactUserInfo(user: string): string {
    var colon := Find(user, ":");
    if 0 <= colon < |user| - 1 then user[..colon + 1] + STARS else user
  }

  function RedactHosts(rest: string): string {
    var q := QueryStart(rest, false);
    if q < 0 then rest else rest[..q + 1] + JoinAmp(RedactAll(SplitAmp(rest[q + 1..])))
  }

  /** The '?' that opens the query string, outside brackets, or -1. */
  function QueryStart(s: string, inBrackets: bool): (q: int)
    ensures -1 <= q < |s|
    ensures q >= 0 ==> s[q] == '?'
  {
    if s == "" then -1
    else if s[0] == '?' && !inBrackets then 0
    else
      var q := QueryStart(s[1..], s[0] == '[' || (inBrackets && s[0] != ']'));
      if q < 0 then -1 else q + 1
  }

  function SplitAmp(s: string): (ps: seq<string>)
    ensures ps != []
    decreases |s|
  {
    var i := Run(NotAmp, s);
    if i == |s| then [s] else [s[..i]] + SplitAmp(s[i + 1..])
  }

  function JoinAmp(ps: seq<string>): string {
    if ps == [] then "" else if |ps| == 1 then ps[0] else ps[0] + "&" + JoinAmp(ps[1..])
  }

  function RedactAll(ps: seq<string>): (rs: seq<string>)
    ensures |rs| == |ps|
    ensures forall i :: 0 <= i < |ps| ==> rs[i] == RedactParam(ps[i])
  {
    seq(|ps|, i requires 0 <= i < |ps| => RedactParam(ps[i]))
  }

  function RedactParam(param: string): string {
    var eq := Find(param, "=");
    if eq >= 0 && IsPasswordKey(DecodedKey(param[..eq])) then param[..eq + 1] + STARS else param
  }

  /** The key with its percent escapes decoded, or as it is when one of them is malformed. */
  function DecodedKey(key: string): string {
    match PathUnescape(key)
    case None => key
    case Some(decoded) => decoded
  }

  /** Go's url.PathUnescape. */
  function PathUnescape(s: string): Option<string> {
    if s == "" then Some("")
    else if s[0] != '%' then
      match PathUnescape(s[1..])
      case None => None
      case Some(r) => Some([s[0]] + r)
    else if |s| < 3 || !IsHex(s[1]) || !IsHex(s[2]) then None
    else
      match PathUnescape(s[3..])
      case None => None
      case Some(r) => Some([(HexValue(s[1]) * 16 + HexValue(s[2])) as char] + r)
  }

  // Printing

  /** Doubles every occurrence of `c`. */
  function Double(s: string, c: char): string {
    if s == "" then "" else (if s[0] == c then [c, c] else [s[0]]) + Double(s[1..], c)
  }

  function EscapeValue(value: string): string {
    Double(Double(value, '\\'), '\'')
  }

  function PrintPair(pair: (string, string)): string {
    pair.0 + "='" + EscapeValue(pair.1) + "'"
  }

  /** The parameters in the order a run of `Build` happens to visit them. */
  function Print(pairs: seq<(string, string)>): string {
    if pairs == [] then ""
    else if |pairs| == 1 then PrintPair(pairs[0])
    else PrintPair(pairs[0]) + " " + Print(pairs[1..])
  }
}
