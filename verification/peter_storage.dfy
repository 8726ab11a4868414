/** Where a translation's books live (rust/peter/src/storage.rs): in the
    value itself, or at a remote URL. A URL is kept as its text; the curl
    download and the URL parser are parameters. */
module PeterStorage {
  import opened Wrappers

  datatype Storage<T> = Iagon(url: string) | Local(data: T)

  /** `StorageFetchError`; the wrapped library errors carry no detail here. */
  datatype StorageFetchError = Network | Http(status: nat) | Serialization | UrlError | Utf8

  /** `is_local`. */
  function IsLocal<T>(s: Storage<T>): (r: bool)
    ensures r <==> LocalData(s).Some?
  {
    s.Local?
  }

  /** `is_remote`. */
  function IsRemote<T>(s: Storage<T>): (r: bool)
    ensures r <==> Url(s).Some?
  {
    s.Iagon?
  }

  /** `url`: the address of remote storage. */
  function Url<T>(s: Storage<T>): (r: Option<string>)
    ensures r.Some? ==> s == Iagon(r.value)
  {
    match s
    case Iagon(u) => Some(u)
    case Local(_) => None
  }

  /** `local_data`: the value of local storage. */
  function LocalData<T>(s: Storage<T>): (r: Option<T>)
    ensures r.Some? ==> s == Local(r.value)
  {
    match s
    case Local(d) => Some(d)
    case Iagon(_) => None
  }

  /** Every storage is exactly one of local and remote. */
  lemma LocalXorRemote<T>(s: Storage<T>)
    ensures IsLocal(s) != IsRemote(s)
  {
  }

  /** The accessors give back what the constructors were given. */
  lemma AccessorsRoundTrip<T>(u: string, d: T)
    ensures Url(Storage<T>.Iagon(u)) == Some(u) && LocalData(Storage<T>.Iagon(u)).None?
    ensures LocalData(Storage.Local(d)) == Some(d) && Url(Storage.Local(d)).None?
  {
  }

  /** `fetch`: local data is returned at once; remote data comes from
      `download`, which stands for the curl request. */
  function Fetch<T>(s: Storage<T>, download: string -> Result<T, StorageFetchError>): (r: Result<T, StorageFetchError>)
    ensures IsLocal(s) ==> r == Ok(LocalData(s).value)
    ensures IsRemote(s) ==> r == download(Url(s).value)
  {
    match s
    case Local(d) => Ok(d)
    case Iagon(u) => download(u)
  }

  /** What the curl process reported: whether it could be started, its exit
      status and code, and its output bytes. */
  datatype ProcessOutput = ProcessOutput(success: bool, code: Option<int>, stdout: seq<int>)

  /** `fetch_from_url`: a process that cannot run is a network error; a
      failing exit becomes `Http` with the exit code cut to 16 bits (`0`
      without a code); then the output must be UTF-8 and parse as JSON.
      The decoder and the JSON parser are parameters. */
  function FetchFromUrl<T>(run: Option<ProcessOutput>, utf8: seq<int> -> Option<string>,
                           parse: string -> Option<T>): (r: Result<T, StorageFetchError>)
    ensures run.None? ==> r == Err(Network)
    ensures run.Some? && !run.value.success ==> r == Err(Http(StatusCode(run.value.code)))
    ensures r.Ok? ==> run.Some? && run.value.success && utf8(run.value.stdout).Some?
                      && parse(utf8(run.value.stdout).value) == Some(r.value)
  {
    match run
    case None => Err(Network)
    case Some(out) =>
      if !out.success then Err(Http(StatusCode(out.code)))
      else match utf8(out.stdout)
        case None => Err(Utf8)
        case Some(text) =>
          match parse(text)
          case None => Err(Serialization)
          case Some(v) => Ok(v)
  }

  /** `code().unwrap_or(0) as u16`: the exit code modulo 2^16. */
  function StatusCode(code: Option<int>): (r: nat)
    ensures r < 0x1_0000
    ensures code.None? ==> r == 0
    ensures code.Some? && 0 <= code.value < 0x1_0000 ==> r == code.value
  {
    code.GetOr(0) % 0x1_0000
  }

  /** An exit code of `-1` reports status 65535. */
  lemma NegativeCodeWraps()
    ensures StatusCode(Some(-1)) == 0xFFFF
  {
  }

  datatype UrlParseError = UrlParseError

  /** `iagon_from_str`: remote storage when `parse` accepts the text. */
  function IagonFromStr<T>(text: string, parse: string -> Option<string>): (r: Result<Storage<T>, UrlParseError>)
    ensures r.Ok? <==> parse(text).Some?
    ensures r.Ok? ==> IsRemote(r.value) && Url(r.value) == parse(text)
  {
    match parse(text)
    case None => Err(UrlParseError)
    case Some(u) => Ok(Iagon(u))
  }
}
