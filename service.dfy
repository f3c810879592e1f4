/** The request gatekeeping of the web service (main.py): the optional API
    key, the client address taken from proxy headers, and the fixed-window
    rate limiter kept per client address and language. */
module Service {
  import opened Wrappers
  import opened Text

  // -----------------------------------------------------------------------
  // verify_api_key
  // -----------------------------------------------------------------------

  /** An `HTTPException`: status code and detail. */
  datatype HttpError = HttpError(status: nat, detail: string)

  const INVALID_KEY: HttpError := HttpError(403, "Invalid or missing API key")

  /** `ENABLE_API_KEY`: the environment variable lower-cased is `"true"`;
      an unset variable reads as `"false"`. */
  function ApiKeyEnabled(env: Option<string>): bool {
    LowerString(env.GetOr("false")) == "true"
  }

  lemma ApiKeyEnabledValues()
    ensures !ApiKeyEnabled(None)
    ensures ApiKeyEnabled(Some("TRUE")) && ApiKeyEnabled(Some("True"))
    ensures !ApiKeyEnabled(Some("1")) && !ApiKeyEnabled(Some("yes"))
  {
    assert LowerString("false") == "false";
    assert LowerString("TRUE") == "true";
    assert LowerString("True") == "true";
    assert LowerString("1") == "1";
    assert LowerString("yes") == "yes";
  }

  /** `verify_api_key`: with the feature off every request passes; with it
      on, a request is refused with 403 exactly when the supplied header
      differs from `REDI_API_KEY`, where an absent header and an unset key
      are both `None`. */
  function VerifyApiKey(enabled: bool, apiKey: Option<string>, supplied: Option<string>): (r: Result<bool, HttpError>)
    ensures !enabled ==> r == Success(true)
    ensures enabled ==> (r.Failure? <==> supplied != apiKey)
    ensures r.Failure? ==> r.error == INVALID_KEY
    ensures r.Success? ==> r.value
  {
    if !enabled then Success(true)
    else if supplied != apiKey then Failure(INVALID_KEY)
    else Success(true)
  }

  /** With the check on and a key configured, a request without the header
      is refused, and one with the right key is accepted. */
  lemma ConfiguredKeyRequired(key: string, other: string)
    requires other != key
    ensures VerifyApiKey(true, Some(key), None) == Failure(INVALID_KEY)
    ensures VerifyApiKey(true, Some(key), Some(other)) == Failure(INVALID_KEY)
    ensures VerifyApiKey(true, Some(key), Some(key)) == Success(true)
  {
  }

  /** With the check on but no key configured, only requests without the
      header get through (`None == None` in the source). */
  lemma UnsetKeyAdmitsMissingHeader(supplied: Option<string>)
    ensures VerifyApiKey(true, None, supplied).Success? <==> supplied == None
  {
  }

  // -----------------------------------------------------------------------
  // get_client_ip
  // -----------------------------------------------------------------------

  /** The request's raw header list as the server receives it: names are
      lower-case, and a name may occur more than once. */
  type Headers = seq<(string, string)>

  /** `request.headers.get(name)`: the value of the first header with that
      name, for a lower-case `name`. */
  function HeaderValue(h: Headers, name: string): (v: Option<string>)
    ensures v.None? <==> forall i :: 0 <= i < |h| ==> h[i].0 != name
    ensures v.Some? ==> exists i :: 0 <= i < |h| && h[i] == (name, v.value) && forall j :: 0 <= j < i ==> h[j].0 != name
  {
    if h == [] then None
    else if h[0].0 == name then Some(h[0].1)
    else
      var v := HeaderValue(h[1..], name);
      assert v.Some? ==> exists i :: 1 <= i < |h| && h[i] == (name, v.value) && forall j :: 0 <= j < i ==> h[j].0 != name by {
        if v.Some? {
          var i :| 0 <= i < |h[1..]| && h[1..][i] == (name, v.value) && forall j :: 0 <= j < i ==> h[1..][j].0 != name;
          assert h[i + 1] == (name, v.value);
          assert forall j :: 0 <= j < i + 1 ==> h[j].0 != name by {
            forall j | 0 <= j < i + 1 ensures h[j].0 != name {
              if j > 0 {
                assert h[j] == h[1..][j - 1];
              }
            }
          }
        }
      }
      v
  }

  /** A header that is absent or empty. */
  predicate Blank(v: Option<string>) {
    v.None? || v.value == ""
  }

  /** `get_client_ip`: a non-empty `X-Real-IP` first; otherwise the first
      comma-separated element of a non-empty `X-Forwarded-For`, stripped;
      otherwise the address of the connection. */
  function GetClientIp(h: Headers, host: string): (ip: string)
    ensures !Blank(HeaderValue(h, "x-real-ip")) ==> ip == HeaderValue(h, "x-real-ip").value
    ensures Blank(HeaderValue(h, "x-real-ip")) && !Blank(HeaderValue(h, "x-forwarded-for")) ==> CleanHop(ip)
    ensures Blank(HeaderValue(h, "x-real-ip")) && Blank(HeaderValue(h, "x-forwarded-for")) ==> ip == host
  {
    var realIp := HeaderValue(h, "x-real-ip");
    var forwardedFor := HeaderValue(h, "x-forwarded-for");
    if !Blank(realIp) then realIp.value
    else if !Blank(forwardedFor) then
      var first := Split(forwardedFor.value, ',')[0];
      assert ',' !in first;
      StripNoComma(first)
    else host
  }

  /** One element of a comma-separated list, stripped: no comma, and no
      whitespace at either end. */
  predicate CleanHop(s: string) {
    ',' !in s && Trimmed(s)
  }

  function StripNoComma(s: string): (r: string)
    requires ',' !in s
    ensures r == Strip(s) && CleanHop(r)
  {
    StripKeeps(s);
    Strip(s)
  }

  lemma StripKeeps(s: string)
    ensures forall c :: c in Strip(s) ==> c in s
  {
    var l := StripLeft(s);
    var r := StripRight(l);
    forall c | c in r ensures c in s {
      var k :| 0 <= k < |r| && r[k] == c;
      assert r[k] == l[k];
      assert l[k] == s[|s| - |l| + k];
    }
  }

  /** The first element of a comma-separated list is the text before the
      first comma. */
  lemma {:induction false} SplitFirst(a: string, rest: string, d: char)
    requires d !in a
    ensures Split(a + [d] + rest, d)[0] == a
    decreases |a|
  {
    var s := a + [d] + rest;
    if a == [] {
      assert s[0] == d && s[1..] == rest;
    } else {
      assert s[0] == a[0] && s[1..] == a[1..] + [d] + rest;
      SplitFirst(a[1..], rest, d);
      assert [a[0]] + a[1..] == a;
    }
  }

  /** Behind a chain of proxies, the client is the first hop of
      `X-Forwarded-For`, unless a non-empty `X-Real-IP` says otherwise. */
  lemma ForwardedForFirstHop(h: Headers, host: string, first: string, rest: string)
    requires Blank(HeaderValue(h, "x-real-ip"))
    requires HeaderValue(h, "x-forwarded-for") == Some(first + "," + rest)
    requires ',' !in first
    ensures GetClientIp(h, host) == Strip(first)
  {
    SplitFirst(first, rest, ',');
  }

  /** Behind a single proxy, `X-Forwarded-For` holds one address, and the
      client is that address, stripped. */
  lemma SingleHop(h: Headers, host: string, ff: string)
    requires Blank(HeaderValue(h, "x-real-ip"))
    requires HeaderValue(h, "x-forwarded-for") == Some(ff) && ff != ""
    requires ',' !in ff
    ensures GetClientIp(h, host) == Strip(ff)
  {
    SplitNoSep(ff, ',');
  }

  /** A non-empty `X-Real-IP` decides, whatever `X-Forwarded-For` and the
      connection say. */
  lemma RealIpWins(host: string, ip: string, others: Headers)
    requires ip != ""
    ensures GetClientIp([("x-real-ip", ip)] + others, host) == ip
  {
    assert ([("x-real-ip", ip)] + others)[0] == ("x-real-ip", ip);
  }

  // -----------------------------------------------------------------------
  // check_rate_limit
  // -----------------------------------------------------------------------

  const RATE_LIMIT_REQUESTS: nat := 20
  /** The length of a window, in seconds. */
  const RATE_LIMIT_WINDOW: int := 60
  const RATE_LIMIT_NON_HR: nat := 10

  /** One entry of `rate_limit_storage`. */
  datatype Window = Window(count: nat, resetTime: int)

  type Storage = map<string, Window>

  /** The allowance per window: 20 requests for Croatian, 10 for any other
      language. The choice is the whole of the source's rule, so the
      contract can only restate it; `WindowAllowance` states what it means. */
  function Limit(lang: string): (n: nat)
    ensures n == if lang == "hr" then RATE_LIMIT_REQUESTS else RATE_LIMIT_NON_HR
  {
    if lang == "hr" then RATE_LIMIT_REQUESTS else RATE_LIMIT_NON_HR
  }

  /** The storage key `f"{client_ip}:{lang}"`. */
  function Key(ip: string, lang: string): string {
    ip + ":" + lang
  }

  /** Keys of languages without a colon are distinct for distinct pairs,
      even for IPv6 addresses, which hold colons. */
  lemma KeyInjective(ip1: string, lang1: string, ip2: string, lang2: string)
    requires ':' !in lang1 && ':' !in lang2
    requires Key(ip1, lang1) == Key(ip2, lang2)
    ensures ip1 == ip2 && lang1 == lang2
  {
    LastColon(ip1, lang1);
    LastColon(ip2, lang2);
    var k := Key(ip1, lang1);
    assert ip1 == k[..|ip1|] && ip2 == k[..|ip2|];
    assert lang1 == k[|ip1| + 1..] && lang2 == k[|ip2| + 1..];
  }

  /** In a key whose language has no colon, the last colon ends the address. */
  lemma LastColon(ip: string, lang: string)
    requires ':' !in lang
    ensures Key(ip, lang)[|ip|] == ':'
    ensures forall i :: |ip| < i < |Key(ip, lang)| ==> Key(ip, lang)[i] != ':'
  {
    forall i | |ip| < i < |Key(ip, lang)| ensures Key(ip, lang)[i] != ':' {
      assert Key(ip, lang)[i] == lang[i - |ip| - 1];
    }
  }

  /** `rate_limit_storage[key]`: a missing key gets a fresh window that
      starts now. */
  function Entry(st: Storage, key: string, now: int): Window {
    if key in st then st[key] else Window(0, now)
  }

  /** The window after the expiry check. */
  function Current(st: Storage, key: string, now: int): Window {
    var w := Entry(st, key, now);
    if now - w.resetTime > RATE_LIMIT_WINDOW then Window(0, now) else w
  }

  /** The answer of `check_rate_limit` and the storage it leaves. */
  datatype Decision = Decision(allowed: bool, storage: Storage)

  /** `check_rate_limit` for a given key: the entry is created if missing,
      reset if its window has expired, and then either found full (deny) or
      counted (allow). */
  function RateStep(st: Storage, key: string, lang: string, now: int): Decision {
    var w := Current(st, key, now);
    if w.count >= Limit(lang) then Decision(false, st[key := w])
    else Decision(true, st[key := w.(count := w.count + 1)])
  }

  /** Every other key's entry is untouched, and the key has an entry afterwards. */
  lemma RateStepFrame(st: Storage, key: string, lang: string, now: int, other: string)
    requires other != key
    ensures var d := RateStep(st, key, lang, now);
      key in d.storage && (other in d.storage <==> other in st) && (other in st ==> d.storage[other] == st[other])
  {
  }

  /** A denied call consumes nothing: the storage is exactly as before (the
      key existed already and its window had not expired). */
  lemma DenialChangesNothing(st: Storage, key: string, lang: string, now: int)
    requires !RateStep(st, key, lang, now).allowed
    ensures RateStep(st, key, lang, now).storage == st
    ensures key in st && st[key].count >= Limit(lang) && now - st[key].resetTime <= RATE_LIMIT_WINDOW
  {
  }

  /** An allowed call adds exactly one to the count of the current window,
      and the count stays within the limit of the language. */
  lemma AllowanceCounts(st: Storage, key: string, lang: string, now: int)
    requires RateStep(st, key, lang, now).allowed
    ensures var w := RateStep(st, key, lang, now).storage[key];
      w.count == Current(st, key, now).count + 1 && w.count <= Limit(lang)
      && w.resetTime == Current(st, key, now).resetTime
  {
  }

  /** A window older than `RATE_LIMIT_WINDOW` seconds is restarted: the
      call is allowed and opens a window at `now` with count 1. */
  lemma ExpiredWindowRestarts(st: Storage, key: string, lang: string, now: int)
    requires key !in st || now - st[key].resetTime > RATE_LIMIT_WINDOW
    ensures RateStep(st, key, lang, now) == Decision(true, st[key := Window(1, now)])
  {
  }

  /** No entry ever counts more than `RATE_LIMIT_REQUESTS`, whatever keys
      and languages the calls use. */
  predicate Bounded(st: Storage) {
    forall k :: k in st ==> st[k].count <= RATE_LIMIT_REQUESTS
  }

  lemma RateStepBounded(st: Storage, key: string, lang: string, now: int)
    requires Bounded(st)
    ensures Bounded(RateStep(st, key, lang, now).storage)
  {
  }

  /** The answers to a series of calls on one key at the times `nows`. */
  function Replay(st: Storage, key: string, lang: string, nows: seq<int>): (r: (nat, Storage))
    decreases |nows|
  {
    if nows == [] then (0, st)
    else
      var d := RateStep(st, key, lang, nows[0]);
      var rest := Replay(d.storage, key, lang, nows[1..]);
      (rest.0 + (if d.allowed then 1 else 0), rest.1)
  }

  /** Within one window, the calls on a key are allowed at most as often as
      the limit minus what the window has already counted: a client gets
      no more than `Limit(lang)` requests per window. */
  lemma {:induction false} WindowAllowance(st: Storage, key: string, lang: string, nows: seq<int>)
    requires key in st && st[key].count <= Limit(lang)
    requires forall i :: 0 <= i < |nows| ==> nows[i] - st[key].resetTime <= RATE_LIMIT_WINDOW
    ensures var (allowed, final) := Replay(st, key, lang, nows);
      && key in final && final[key].resetTime == st[key].resetTime
      && final[key].count == st[key].count + allowed
      && allowed <= Limit(lang) - st[key].count
    decreases |nows|
  {
    if nows != [] {
      var d := RateStep(st, key, lang, nows[0]);
      assert d.storage[key].resetTime == st[key].resetTime;
      WindowAllowance(d.storage, key, lang, nows[1..]);
    }
  }

  /** `rate_limit_storage` and `check_rate_limit`, the one place that
      changes it. */
  class RateLimiter {
    var storage: Storage

    ghost predicate Valid()
      reads this
    {
      Bounded(storage)
    }

    constructor ()
      ensures Valid() && storage == map[]
    {
      storage := map[];
    }

    method CheckRateLimit(h: Headers, host: string, lang: string, now: int) returns (allowed: bool)
      requires Valid()
      modifies this
      ensures Valid()
      ensures Decision(allowed, storage) == RateStep(old(storage), Key(GetClientIp(h, host), lang), lang, now)
    {
      var clientIp := GetClientIp(h, host);
      var key := Key(clientIp, lang);
      allowed := CheckKey(key, lang, now);
    }

    /** The part of `check_rate_limit` after the key is built. */
    method CheckKey(key: string, lang: string, now: int) returns (allowed: bool)
      requires Valid()
      modifies this
      ensures Valid()
      ensures Decision(allowed, storage) == RateStep(old(storage), key, lang, now)
    {
      ghost var d := RateStep(storage, key, lang, now);
      RateStepBounded(storage, key, lang, now);
      if key !in storage {
        storage := storage[key := Window(0, now)];
      }
      var data := storage[key];
      if now - data.resetTime > RATE_LIMIT_WINDOW {
        data := Window(0, now);
        storage := storage[key := data];
      }
      assert data == Current(old(storage), key, now);
      assert storage == old(storage)[key := data];
      var limit := if lang == "hr" then RATE_LIMIT_REQUESTS else RATE_LIMIT_NON_HR;
      if data.count >= limit {
        assert d == Decision(false, storage);
        return false;
      }
      storage := storage[key := data.(count := data.count + 1)];
      allowed := true;
      assert d == Decision(allowed, storage);
    }
  }
}
