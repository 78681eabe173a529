/**
 The automated setup: find the browser cookie databases, pull the
 cyberskyline.com cookies out of the first one that has any (decrypting
 Chrome-family values where needed), save them, and point `COOKIE_FILE` in
 `config.py` at the saved file, creating `config.py` from
 `config.example.py` when it does not exist yet.

 Files, the sqlite databases, the globbing, AES-CBC, DPAPI, PBKDF2 and UTF-8
 decoding are parameters: a file's contents are an `Option` (absent when the
 file does not exist), a database read is an `Option` of its rows (absent
 when reading raises), and each foreign routine is a function that returns
 `None` where it would raise.
 */
module AutoSetup {
  import opened Common

  type byte = x: int | 0 <= x < 256

  // ---------------------------------------------------------------------
  // Browser discovery

  /** The candidate cookie databases of each browser, in table order. */
  type BrowserPaths = seq<(string, seq<string>)>

  /** The candidates of one browser that exist, in order. */
  function Existing(ps: seq<string>, onDisk: string -> bool): (r: seq<string>)
    ensures |r| <= |ps|
    ensures forall p :: p in r <==> p in ps && onDisk(p)
    decreases |ps|
  {
    if |ps| == 0 then []
    else Existing(ps[..|ps| - 1], onDisk) + (if onDisk(ps[|ps| - 1]) then [ps[|ps| - 1]] else [])
  }

  /** `e` is the kept form of some entry of `table` that lists a candidate. */
  ghost predicate KeptFrom(table: BrowserPaths, onDisk: string -> bool, e: (string, seq<string>))
  {
    exists j :: 0 <= j < |table| && table[j].1 != [] && e == (table[j].0, Existing(table[j].1, onDisk))
  }

  /** `get_browser_paths`' filter: a browser with no candidate at all is
      dropped; a kept browser keeps only its existing candidates, which may
      leave it with none. */
  function FilterBrowsers(table: BrowserPaths, onDisk: string -> bool): (r: BrowserPaths)
    ensures |r| <= |table|
    ensures forall i :: 0 <= i < |r| ==> KeptFrom(table, onDisk, r[i])
    ensures forall j :: 0 <= j < |table| && table[j].1 != [] ==> (table[j].0, Existing(table[j].1, onDisk)) in r
    decreases |table|
  {
    if |table| == 0 then []
    else
      var init := FilterBrowsers(table[..|table| - 1], onDisk);
      var last := table[|table| - 1];
      assert table == table[..|table| - 1] + [last];
      FilterBrowsersStep(table[..|table| - 1], last, onDisk, init);
      init + (if last.1 != [] then [(last.0, Existing(last.1, onDisk))] else [])
  }

  /** The step of `FilterBrowsers`: appending one entry to the table keeps
      every earlier kept entry and keeps the new one exactly when it lists a
      candidate. */
  lemma {:induction false} FilterBrowsersStep(pre: BrowserPaths, last: (string, seq<string>), onDisk: string -> bool, init: BrowserPaths)
    requires forall i :: 0 <= i < |init| ==> KeptFrom(pre, onDisk, init[i])
    requires forall j :: 0 <= j < |pre| && pre[j].1 != [] ==> (pre[j].0, Existing(pre[j].1, onDisk)) in init
    ensures var table, r := pre + [last], init + (if last.1 != [] then [(last.0, Existing(last.1, onDisk))] else []);
            && (forall i :: 0 <= i < |r| ==> KeptFrom(table, onDisk, r[i]))
            && (forall j :: 0 <= j < |table| && table[j].1 != [] ==> (table[j].0, Existing(table[j].1, onDisk)) in r)
  {
    var table := pre + [last];
    var r := init + (if last.1 != [] then [(last.0, Existing(last.1, onDisk))] else []);
    forall i | 0 <= i < |r|
      ensures KeptFrom(table, onDisk, r[i])
    {
      if i < |init| {
        assert KeptFrom(pre, onDisk, init[i]);
        var j :| 0 <= j < |pre| && pre[j].1 != [] && init[i] == (pre[j].0, Existing(pre[j].1, onDisk));
        assert table[j] == pre[j];
        assert r[i] == init[i];
      } else {
        assert table[|pre|] == last;
        assert r[i] == (table[|pre|].0, Existing(table[|pre|].1, onDisk));
      }
    }
    forall j | 0 <= j < |table| && table[j].1 != []
      ensures (table[j].0, Existing(table[j].1, onDisk)) in r
    {
      if j < |pre| {
        assert table[j] == pre[j];
      } else {
        assert table[j] == last;
      }
    }
  }

  /** A browser whose table entry lists no candidate is not kept. */
  lemma {:induction false} EmptyBrowsersDropped(table: BrowserPaths, onDisk: string -> bool, b: string)
    requires forall j :: 0 <= j < |table| && table[j].0 == b ==> table[j].1 == []
    ensures forall i :: 0 <= i < |FilterBrowsers(table, onDisk)| ==> FilterBrowsers(table, onDisk)[i].0 != b
  {
    var r := FilterBrowsers(table, onDisk);
    forall i | 0 <= i < |r| ensures r[i].0 != b {
      assert KeptFrom(table, onDisk, r[i]);
      var j :| 0 <= j < |table| && table[j].1 != [] && r[i] == (table[j].0, Existing(table[j].1, onDisk));
    }
  }

  // ---------------------------------------------------------------------
  // Cookie extraction

  /** A row of the Chrome `cookies` table: name, plaintext value, encrypted
      value. */
  datatype CookieRow = CookieRow(name: string, value: string, encrypted: seq<byte>)

  /** Python truthiness of an optional string: present and non-empty. */
  predicate Truthy(o: Option<string>)
  {
    o.Some? && o.value != ""
  }

  /** The value a row contributes: the plaintext one when non-empty, else
      the decryption of a non-empty encrypted value when that is non-empty,
      else none (the row is skipped with a warning). */
  function CookieValue(row: CookieRow, decrypt: seq<byte> -> Option<string>): (r: Option<string>)
    ensures row.value != "" ==> r == Some(row.value)
    ensures r.Some? ==> r.value != ""
    ensures r.Some? && r.value != row.value ==> row.value == "" && decrypt(row.encrypted) == r
  {
    if row.value != "" then Some(row.value)
    else if row.encrypted != [] && Truthy(decrypt(row.encrypted)) then decrypt(row.encrypted)
    else None
  }

  /** `f"{name}={value}"` for every row that contributes a value, in row
      order. */
  function CookiePairs(rows: seq<CookieRow>, decrypt: seq<byte> -> Option<string>): seq<string>
    decreases |rows|
  {
    if |rows| == 0 then []
    else
      var row := rows[|rows| - 1];
      CookiePairs(rows[..|rows| - 1], decrypt)
      + (match CookieValue(row, decrypt) case Some(v) => [row.name + "=" + v] case None => [])
  }

  /** Every pair comes from a contributing row, and every contributing row
      gives its pair. */
  lemma {:induction false} CookiePairsExact(rows: seq<CookieRow>, decrypt: seq<byte> -> Option<string>, s: string)
    ensures s in CookiePairs(rows, decrypt) <==>
              exists j :: 0 <= j < |rows| && CookieValue(rows[j], decrypt).Some?
                          && s == rows[j].name + "=" + CookieValue(rows[j], decrypt).value
    decreases |rows|
  {
    if |rows| > 0 {
      var init := rows[..|rows| - 1];
      CookiePairsExact(init, decrypt, s);
      assert forall j :: 0 <= j < |init| ==> init[j] == rows[j];
      if exists j :: 0 <= j < |rows| && CookieValue(rows[j], decrypt).Some?
                     && s == rows[j].name + "=" + CookieValue(rows[j], decrypt).value {
        var j :| 0 <= j < |rows| && CookieValue(rows[j], decrypt).Some?
                 && s == rows[j].name + "=" + CookieValue(rows[j], decrypt).value;
        if j < |init| {
          assert s in CookiePairs(init, decrypt);
        }
      }
    }
  }

  /** No pair survives exactly when no row contributes a value. */
  lemma {:induction false} CookiePairsEmpty(rows: seq<CookieRow>, decrypt: seq<byte> -> Option<string>)
    ensures CookiePairs(rows, decrypt) == [] <==> forall j :: 0 <= j < |rows| ==> CookieValue(rows[j], decrypt).None?
    decreases |rows|
  {
    if |rows| > 0 {
      var init := rows[..|rows| - 1];
      CookiePairsEmpty(init, decrypt);
      assert forall j :: 0 <= j < |init| ==> init[j] == rows[j];
    }
  }

  /** `"; ".join(...)` of the pairs, or `None` when there is none. */
  function JoinCookies(pairs: seq<string>): (r: Option<string>)
    ensures r.None? <==> pairs == []
    ensures |pairs| == 1 ==> r == Some(pairs[0])
    ensures r.Some? ==> StartsWith(r.value, pairs[0])
  {
    if pairs == [] then None else Some(Join("; ", pairs))
  }

  /** `extract_chrome_cookies` after the query: `rows` is `None` when the
      copy or the query raises. */
  method ExtractChromeCookies(rows: Option<seq<CookieRow>>, decrypt: seq<byte> -> Option<string>)
    returns (r: Option<string>)
    ensures rows.None? ==> r.None?
    ensures rows.Some? ==> r == JoinCookies(CookiePairs(rows.value, decrypt))
  {
    if rows.None? {
      return None;
    }
    var rs := rows.value;
    var pairs: seq<string> := [];
    for i := 0 to |rs|
      invariant pairs == CookiePairs(rs[..i], decrypt)
    {
      var row := rs[i];
      assert rs[..i + 1][..i] == rs[..i];
      if row.value != "" {
        pairs := pairs + [row.name + "=" + row.value];
      } else if row.encrypted != [] {
        var decrypted := decrypt(row.encrypted);
        if Truthy(decrypted) {
          pairs := pairs + [row.name + "=" + decrypted.value];
        }
      }
    }
    assert rs[..|rs|] == rs;
    if pairs != [] {
      r := Some(Join("; ", pairs));
    } else {
      r := None;
    }
  }

  /** `extract_firefox_cookies`: every `(name, value)` row joined, `None`
      when there is none or the read raises. */
  function ExtractFirefoxCookies(rows: Option<seq<(string, string)>>): (r: Option<string>)
    ensures r.None? <==> rows.None? || rows.value == []
    ensures r.Some? && |rows.value| == 1 ==> r.value == rows.value[0].0 + "=" + rows.value[0].1
    ensures r.Some? ==> StartsWith(r.value, rows.value[0].0 + "=" + rows.value[0].1)
  {
    match rows
    case None => None
    case Some(rs) => JoinCookies(seq(|rs|, i requires 0 <= i < |rs| => rs[i].0 + "=" + rs[i].1))
  }

  // ---------------------------------------------------------------------
  // Decryption

  /** The operating systems the script tells apart. */
  datatype System = Linux | Darwin | Windows | OtherSystem

  /** The version prefixes `b'v10'` and `b'v11'`. */
  const V10: seq<byte> := [118, 49, 48]
  const V11: seq<byte> := [118, 49, 49]

  /** The IV Chrome uses: sixteen spaces. */
  const ChromeIv: seq<byte> := seq(16, _ => 32)

  predicate HasVersionPrefix(enc: seq<byte>)
  {
    |enc| >= 3 && (enc[..3] == V10 || enc[..3] == V11)
  }

  /** `decrypted[:-decrypted[-1]]`: `None` (an `IndexError`) on an empty
      block; with Python slicing, a last byte of 0 or above the length leaves
      nothing. */
  function Unpad(d: seq<byte>): (r: Option<seq<byte>>)
    ensures r.None? <==> d == []
    ensures r.Some? ==> |r.value| <= |d| && r.value == d[..|r.value|]
    ensures r.Some? && 1 <= d[|d| - 1] <= |d| ==> |r.value| == |d| - d[|d| - 1]
    ensures r.Some? && (d[|d| - 1] == 0 || d[|d| - 1] > |d|) ==> r.value == []
  {
    if |d| == 0 then None
    else
      var n := d[|d| - 1];
      if n == 0 || n > |d| then Some([]) else Some(d[..|d| - n])
  }

  /** PKCS#7 padding to a 16-byte boundary: `k` copies of the byte `k`,
      `1 <= k <= 16`. */
  function Pad(data: seq<byte>): (r: seq<byte>)
    ensures |r| % 16 == 0 && |data| < |r| <= |data| + 16
  {
    var k := 16 - |data| % 16;
    data + seq(k, _ => k)
  }

  /** Unpadding undoes PKCS#7 padding. */
  lemma {:induction false} UnpadPad(data: seq<byte>)
    ensures Unpad(Pad(data)) == Some(data)
  {
    var k := 16 - |data| % 16;
    var p := Pad(data);
    assert p[|p| - 1] == k;
    assert p[..|p| - k] == data;
  }

  /** `decrypt_chrome_cookie_linux`: without the crypto library or a key,
      `None`; a `v10`/`v11` value has its prefix dropped, is decrypted with
      the key and the space IV, unpadded and decoded; any other value is
      decoded as it is. `aes` and `decode` return `None` where they raise. */
  function DecryptLinux(enc: seq<byte>, key: Option<seq<byte>>, hasCrypto: bool,
                        aes: (seq<byte>, seq<byte>, seq<byte>) -> Option<seq<byte>>,
                        decode: seq<byte> -> Option<string>): (r: Option<string>)
    ensures !hasCrypto || key.None? || key.value == [] ==> r.None?
    ensures hasCrypto && key.Some? && key.value != [] && !HasVersionPrefix(enc) ==> r == decode(enc)
    ensures r.Some? && HasVersionPrefix(enc) ==>
              exists plain :: aes(key.value, ChromeIv, enc[3..]) == Some(plain) && Unpad(plain).Some?
                              && decode(Unpad(plain).value) == r
  {
    if !hasCrypto || key.None? || key.value == [] then None
    else if HasVersionPrefix(enc) then
      match aes(key.value, ChromeIv, enc[3..])
      case None => None
      case Some(plain) =>
        match Unpad(plain)
        case None => None
        case Some(u) => decode(u)
    else decode(enc)
  }

  /** A value Chrome encrypted as `v10` + AES-CBC of the padded cookie
      decrypts back to the cookie. */
  lemma {:induction false} DecryptLinuxRoundTrip(cookie: seq<byte>, body: seq<byte>, key: seq<byte>,
                              aes: (seq<byte>, seq<byte>, seq<byte>) -> Option<seq<byte>>,
                              decode: seq<byte> -> Option<string>)
    requires key != []
    requires aes(key, ChromeIv, body) == Some(Pad(cookie))
    ensures DecryptLinux(V10 + body, Some(key), true, aes, decode) == decode(cookie)
  {
    assert (V10 + body)[..3] == V10;
    assert (V10 + body)[3..] == body;
    UnpadPad(cookie);
  }

  /** The decryption `extract_chrome_cookies` applies on each system: DPAPI
      on Windows, the AES routine on Linux and macOS, none elsewhere. */
  function PlatformDecrypt(system: System, enc: seq<byte>, windows: seq<byte> -> Option<string>,
                           key: Option<seq<byte>>, hasCrypto: bool,
                           aes: (seq<byte>, seq<byte>, seq<byte>) -> Option<seq<byte>>,
                           decode: seq<byte> -> Option<string>): (r: Option<string>)
    ensures system == OtherSystem ==> r.None?
    ensures system == Windows ==> r == windows(enc)
    ensures (system == Linux || system == Darwin) ==> r == DecryptLinux(enc, key, hasCrypto, aes, decode)
  {
    match system
    case Windows => windows(enc)
    case Linux => DecryptLinux(enc, key, hasCrypto, aes, decode)
    case Darwin => DecryptLinux(enc, key, hasCrypto, aes, decode)
    case OtherSystem => None
  }

  // ---------------------------------------------------------------------
  // First success

  /** One extraction attempt: the Firefox reader for Firefox, the Chrome
      reader (told the browser's name) for the others. */
  function Attempt(browser: string, path: string, firefox: string -> Option<string>,
                   chrome: (string, string) -> Option<string>): Option<string>
  {
    if browser == "Firefox" then firefox(path) else chrome(path, browser)
  }

  /** Every attempt before path `j` of browser `i` fails. */
  ghost predicate FailsBefore(bp: BrowserPaths, i: int, j: int, firefox: string -> Option<string>,
                              chrome: (string, string) -> Option<string>)
    requires 0 <= i <= |bp|
  {
    && (forall i', j' :: 0 <= i' < i && 0 <= j' < |bp[i'].1| ==> !Truthy(Attempt(bp[i'].0, bp[i'].1[j'], firefox, chrome)))
    && (i < |bp| ==> forall j' :: 0 <= j' < j && j' < |bp[i].1| ==> !Truthy(Attempt(bp[i].0, bp[i].1[j'], firefox, chrome)))
  }

  /** `find_and_extract_cookies`: the browsers in order, each one's paths in
      order; the first attempt that yields cookies wins, with its browser's
      name; when none does, `(None, None)`. */
  method FindAndExtractCookies(bp: BrowserPaths, firefox: string -> Option<string>,
                               chrome: (string, string) -> Option<string>)
    returns (r: Option<(string, string)>)
    ensures r.None? ==> FailsBefore(bp, |bp|, 0, firefox, chrome)
    ensures r.Some? ==> exists i, j :: (0 <= i < |bp| && 0 <= j < |bp[i].1|
              && FailsBefore(bp, i, j, firefox, chrome)
              && Attempt(bp[i].0, bp[i].1[j], firefox, chrome) == Some(r.value.0)
              && r.value.0 != "" && r.value.1 == bp[i].0)
  {
    for i := 0 to |bp|
      invariant FailsBefore(bp, i, 0, firefox, chrome)
    {
      var browser, paths := bp[i].0, bp[i].1;
      for j := 0 to |paths|
        invariant FailsBefore(bp, i, j, firefox, chrome)
      {
        var cookies := if browser == "Firefox" then firefox(paths[j]) else chrome(paths[j], browser);
        if Truthy(cookies) {
          return Some((cookies.value, browser));
        }
      }
    }
    return None;
  }

  // ---------------------------------------------------------------------
  // The config file

  /** The prefix that marks the cookie file setting. */
  const CookieKey: string := "COOKIE_FILE ="

  /** `line.strip().startswith('COOKIE_FILE =')`. */
  predicate IsCookieLine(line: string)
  {
    StartsWith(Strip(line), CookieKey)
  }

  /** The replacement line, `COOKIE_FILE = "<path>"` and a newline. */
  function CookieLine(path: string): string
  {
    "COOKIE_FILE = \"" + path + "\"\n"
  }

  /** The position of the first element of `xs` satisfying `p`, if any. */
  function FirstWhere<T>(xs: seq<T>, p: T -> bool): (r: Option<nat>)
    ensures r.Some? ==> r.value < |xs| && p(xs[r.value])
    ensures r.Some? ==> forall k :: 0 <= k < r.value ==> !p(xs[k])
    ensures r.None? <==> forall k :: 0 <= k < |xs| ==> !p(xs[k])
    decreases |xs|
  {
    if |xs| == 0 then None
    else if p(xs[0]) then Some(0)
    else
      match FirstWhere(xs[1..], p)
      case None =>
        assert forall k :: 1 <= k < |xs| ==> xs[k] == xs[1..][k - 1];
        None
      case Some(k) =>
        assert forall j :: 1 <= j < |xs| ==> xs[j] == xs[1..][j - 1];
        Some(k + 1)
  }

  /** The position of the first cookie line, if any. */
  function FirstCookieLine(lines: seq<string>): Option<nat>
  {
    FirstWhere(lines, IsCookieLine)
  }

  /** `xs` with its first element satisfying `p`, and only that one,
      replaced by `x`. */
  function ReplaceFirst<T>(xs: seq<T>, p: T -> bool, x: T): (r: seq<T>)
    ensures |r| == |xs|
    ensures forall k :: 0 <= k < |xs| && !p(xs[k]) ==> r[k] == xs[k]
    ensures forall k :: 0 <= k < |xs| && r[k] != xs[k] ==> FirstWhere(xs, p) == Some(k) && r[k] == x
    ensures FirstWhere(xs, p).Some? ==> r[FirstWhere(xs, p).value] == x
  {
    match FirstWhere(xs, p)
    case None => xs
    case Some(i) => xs[i := x]
  }

  /** The lines with the first cookie line, and only that one, replaced by
      the setting for `path`. */
  function ReplaceCookieLine(lines: seq<string>, path: string): seq<string>
  {
    ReplaceFirst(lines, IsCookieLine, CookieLine(path))
  }

  /** The loop of `update_or_create_config`: replace the first element
      satisfying `p` and stop; `updated` says whether there was one. */
  method ReplaceFirstLoop<T>(xs: seq<T>, p: T -> bool, x: T) returns (out: seq<T>, updated: bool)
    ensures updated <==> exists k :: 0 <= k < |xs| && p(xs[k])
    ensures out == ReplaceFirst(xs, p, x)
  {
    out, updated := xs, false;
    for i := 0 to |xs|
      invariant forall k :: 0 <= k < i ==> !p(xs[k])
    {
      if p(xs[i]) {
        assert FirstWhere(xs, p) == Some(i);
        out, updated := xs[i := x], true;
        return;
      }
    }
  }

  /** The rewrite of the cookie setting in a config's lines: only the first
      line whose stripped form starts with `COOKIE_FILE =` becomes
      `COOKIE_FILE = "<path>"`; `updated` says whether there was one. */
  method RewriteCookieLine(lines: seq<string>, path: string) returns (out: seq<string>, updated: bool)
    ensures updated <==> FirstCookieLine(lines).Some?
    ensures |out| == |lines|
    ensures forall k :: 0 <= k < |lines| && out[k] != lines[k] ==> FirstCookieLine(lines) == Some(k)
    ensures updated ==> out[FirstCookieLine(lines).value] == CookieLine(path)
    ensures out == ReplaceCookieLine(lines, path)
  {
    out, updated := ReplaceFirstLoop(lines, IsCookieLine, CookieLine(path));
  }

  /** Stripping a string that starts with a non-space and whose
      second-to-last character is a non-space keeps every prefix that ends
      before its last character. */
  lemma {:induction false} StripKeepsPrefix(s: string, key: string)
    requires 2 <= |s| && |key| < |s| && StartsWith(s, key)
    requires !IsSpace(s[0]) && !IsSpace(s[|s| - 2])
    ensures StartsWith(Strip(s), key)
  {
    var l := TrimLeft(s);
    assert l == s;
    TrimRightFacts(l);
    var t := TrimRight(l);
    assert |t| >= |s| - 1;
    assert t[..|key|] == s[..|key|];
  }

  /** The replacement line is itself a cookie line. */
  lemma {:induction false} CookieLineIsCookieLine(path: string)
    ensures IsCookieLine(CookieLine(path))
  {
    var s := CookieLine(path);
    assert s == "COOKIE_FILE = \"" + path + "\"\n";
    assert s[..|CookieKey|] == CookieKey;
    assert s[0] == 'C' && s[|s| - 2] == '"';
    StripKeepsPrefix(s, CookieKey);
  }

  /** Replacing the first match by another match keeps it the first match,
      and replacing again changes nothing. */
  lemma {:induction false} ReplaceFirstIdempotent<T>(xs: seq<T>, p: T -> bool, x: T)
    requires p(x)
    ensures FirstWhere(ReplaceFirst(xs, p, x), p) == FirstWhere(xs, p)
    ensures ReplaceFirst(ReplaceFirst(xs, p, x), p, x) == ReplaceFirst(xs, p, x)
  {
    var r := ReplaceFirst(xs, p, x);
    match FirstWhere(xs, p)
    case None =>
      assert r == xs;
    case Some(i) =>
      assert r == xs[i := x];
      assert forall k :: 0 <= k < i ==> r[k] == xs[k];
      assert FirstWhere(r, p) == Some(i);
      assert r[i := x] == r;
  }

  /** Reading the rewritten lines back finds the new setting where the old
      one was, and rewriting them again changes nothing. */
  lemma {:induction false} ReplaceCookieLineIdempotent(lines: seq<string>, path: string)
    ensures FirstCookieLine(ReplaceCookieLine(lines, path)) == FirstCookieLine(lines)
    ensures ReplaceCookieLine(ReplaceCookieLine(lines, path), path) == ReplaceCookieLine(lines, path)
  {
    CookieLineIsCookieLine(path);
    ReplaceFirstIdempotent(lines, IsCookieLine, CookieLine(path));
  }

  /** The two config files as found: their lines, `None` when absent. */
  datatype ConfigFiles = ConfigFiles(config: Option<seq<string>>, example: Option<seq<string>>)

  /** The outcome: the return value, and the lines written to `config.py`
      if it was written. */
  datatype ConfigOutcome = ConfigOutcome(ok: bool, written: Option<seq<string>>)

  /** `update_or_create_config`. An existing `config.py` is rewritten only
      when it holds a cookie line; otherwise `config.py` is created from
      `config.example.py` whether or not that holds one; with neither file
      the function fails and writes nothing. */
  function UpdateOrCreateConfig(files: ConfigFiles, path: string): (r: ConfigOutcome)
    ensures r.ok <==> files.config.Some? || files.example.Some?
    ensures !r.ok ==> r.written.None?
    ensures files.config.Some? ==> (r.written.Some? <==> FirstCookieLine(files.config.value).Some?)
    ensures files.config.Some? && r.written.Some? ==> r.written.value == ReplaceCookieLine(files.config.value, path)
    ensures files.config.None? && files.example.Some? ==> r.written == Some(ReplaceCookieLine(files.example.value, path))
  {
    match files.config
    case Some(lines) =>
      (match FirstCookieLine(lines)
       case Some(_) => ConfigOutcome(true, Some(ReplaceCookieLine(lines, path)))
       case None => ConfigOutcome(true, None))
    case None =>
      (match files.example
       case Some(lines) => ConfigOutcome(true, Some(ReplaceCookieLine(lines, path)))
       case None => ConfigOutcome(false, None))
  }

  /** Whenever a config is written from lines that hold a cookie line, its
      first cookie line names the new cookie file. */
  lemma {:induction false} WrittenConfigPointsAtCookies(files: ConfigFiles, path: string)
    requires UpdateOrCreateConfig(files, path).written.Some?
    requires files.config.Some? || (files.example.Some? && FirstCookieLine(files.example.value).Some?)
    ensures var w := UpdateOrCreateConfig(files, path).written.value;
      FirstCookieLine(w).Some? && w[FirstCookieLine(w).value] == CookieLine(path)
  {
    var src := if files.config.Some? then files.config.value else files.example.value;
    ReplaceCookieLineIdempotent(src, path);
  }

  /** The observable result of a setup run. */
  datatype SetupOutcome = SetupOutcome(exitCode: int, cookieFile: Option<string>, config: Option<seq<string>>)

  /** `main`: no cookies ends the run with status 1 before anything is
      written; otherwise the cookies are saved and the config updated, and
      the status is 0 exactly when the config step succeeds. */
  function Setup(found: Option<(string, string)>, files: ConfigFiles, cookiePath: string): (r: SetupOutcome)
    ensures r.exitCode == 0 <==> found.Some? && found.value.0 != "" && (files.config.Some? || files.example.Some?)
    ensures r.exitCode == 0 || r.exitCode == 1
    ensures r.cookieFile.Some? <==> found.Some? && found.value.0 != ""
    ensures r.cookieFile.Some? ==> r.cookieFile.value == found.value.0
    ensures r.cookieFile.None? ==> r.config.None?
  {
    if found.None? || found.value.0 == "" then SetupOutcome(1, None, None)
    else
      var outcome := UpdateOrCreateConfig(files, cookiePath);
      SetupOutcome(if outcome.ok then 0 else 1, Some(found.value.0), outcome.written)
  }
}
