/** The tagged-value tree that the host's JSON decoder produces (a VRChat
    `DataToken`), with the lookups the loader performs on it.  The decoder
    itself is not part of this model: its result is an input. */
module Json {
  import opened Wrappers

  /** One JSON value.  Every JSON number is decoded as a double.  `Error`
      is the token the host hands back for a key or index it cannot find. */
  datatype Token =
    | Null
    | Boolean(b: bool)
    | Number(n: real)
    | Str(s: string)
    | List(items: seq<Token>)
    | Dict(fields: map<string, Token>)
    | Error

  type Dictionary = map<string, Token>

  datatype TokenType = TNull | TBoolean | TDouble | TString | TDataList | TDataDictionary | TError

  function TypeOf(t: Token): TokenType
  {
    match t
    case Null => TNull
    case Boolean(_) => TBoolean
    case Number(_) => TDouble
    case Str(_) => TString
    case List(_) => TDataList
    case Dict(_) => TDataDictionary
    case Error => TError
  }

  /** `DataDictionary.TryGetValue(key, type, out value)`: succeeds exactly
      when the key is present and its token has the requested type. */
  function TryGetValue(d: Dictionary, key: string, ty: TokenType): (r: Option<Token>)
    ensures r.Some? <==> key in d && TypeOf(d[key]) == ty
    ensures r.Some? ==> r.value == d[key] && TypeOf(r.value) == ty
  {
    if key in d && TypeOf(d[key]) == ty then Some(d[key]) else None
  }

  /** The indexer `dict[key]`: a missing key reads as an error token. */
  function Get(d: Dictionary, key: string): Token
  {
    if key in d then d[key] else Error
  }

  /** `DataList.TryGetValue(index, type, out value)`. */
  function ListTryGetValue(l: seq<Token>, i: int, ty: TokenType): (r: Option<Token>)
    ensures r.Some? <==> 0 <= i < |l| && TypeOf(l[i]) == ty
    ensures r.Some? ==> r.value == l[i]
  {
    if 0 <= i < |l| && TypeOf(l[i]) == ty then Some(l[i]) else None
  }

  /** The explicit cast `(double)token`; a token of another type throws. */
  function AsDouble(t: Token): (r: Run<real>)
    ensures r.Ok? <==> t.Number?
    ensures r.Ok? ==> r.value == t.n
  {
    if t.Number? then Ok(t.n) else Fault
  }

  /** The explicit cast `(DataDictionary)token`. */
  function AsDict(t: Token): (r: Run<Dictionary>)
    ensures r.Ok? <==> t.Dict?
    ensures r.Ok? ==> r.value == t.fields
  {
    if t.Dict? then Ok(t.fields) else Fault
  }

  /** The explicit cast `(DataList)token`. */
  function AsList(t: Token): (r: Run<seq<Token>>)
    ensures r.Ok? <==> t.List?
    ensures r.Ok? ==> r.value == t.items
  {
    if t.List? then Ok(t.items) else Fault
  }
}
