/** The database settings computed at start-up: the connection URL with its
    `sslmode` parameters removed, whether the schema is synchronised, and
    whether the connection uses SSL. Environment variables are parameters;
    `None` is an unset variable. */
module AppConfig {
  import opened Wrappers
  import opened Strings

  /** `const nodeEnv = process.env.NODE_ENV || 'production'; return nodeEnv !== 'production'` */
  function Synchronize(nodeEnv: Option<string>): (r: bool)
    ensures r <==> Truthy(nodeEnv) && nodeEnv.value != "production"
  {
    var env := if Truthy(nodeEnv) then nodeEnv.value else "production";
    env != "production"
  }

  /** The `ssl` option: off, or on with self-signed certificates accepted. */
  datatype SslOption = NoSsl | Ssl(rejectUnauthorized: bool)

  /** Off for an empty URL and for local databases, on otherwise. */
  function SslFor(databaseUrl: Option<string>): (r: SslOption)
    ensures r == NoSsl <==>
      !Truthy(databaseUrl) || Contains(databaseUrl.value, "localhost") || Contains(databaseUrl.value, "127.0.0.1")
    ensures r != NoSsl ==> r == Ssl(false)
  {
    var url := if Truthy(databaseUrl) then databaseUrl.value else "";
    if url == "" then NoSsl
    else if Contains(url, "localhost") || Contains(url, "127.0.0.1") then NoSsl
    else Ssl(false)
  }

  /** `s` has a `?sslmode=` or `&sslmode=` at position `i`. */
  predicate SslModeAt(s: string, i: int) {
    OccursAt(s, "?sslmode=", i) || OccursAt(s, "&sslmode=", i)
  }

  predicate NoSslMode(s: string) {
    forall i :: 0 <= i < |s| ==> !SslModeAt(s, i)
  }

  /** `[^&]*` matched greedily: drops characters up to the next `&`. */
  function SkipValue(s: string): (r: string)
    ensures |r| <= |s| && r == s[|s| - |r|..]
    ensures r == "" || r[0] == '&'
    decreases |s|
  {
    if |s| == 0 || s[0] == '&' then s else SkipValue(s[1..])
  }

  /** `url.replace(/[?&]sslmode=[^&]*\/g, '')`, scanning from the left. */
  function StripSslMode(s: string): (r: string)
    ensures |r| <= |s|
    decreases |s|
  {
    if |s| == 0 then ""
    else if SslModeAt(s, 0) then StripSslMode(SkipValue(s[9..]))
    else [s[0]] + StripSslMode(s[1..])
  }

  /** `url.replace(/[?&]$/, '')` */
  function TrimSeparator(s: string): (r: string)
    ensures |s| > 0 && (s[|s| - 1] == '?' || s[|s| - 1] == '&') ==> r == s[..|s| - 1]
    ensures !(|s| > 0 && (s[|s| - 1] == '?' || s[|s| - 1] == '&')) ==> r == s
  {
    if |s| > 0 && (s[|s| - 1] == '?' || s[|s| - 1] == '&') then s[..|s| - 1] else s
  }

  /** What removing the parameters leaves at the front is what was at the
      front: a word without `&` begins the result only if it began `s`. */
  lemma {:induction false} StripKeepsFront(s: string, w: string)
    requires w != "" && '&' !in w
    requires HasPrefix(StripSslMode(s), w)
    ensures HasPrefix(s, w)
    decreases |s|
  {
    if |s| == 0 {
    } else if SslModeAt(s, 0) {
      var u := SkipValue(s[9..]);
      StripKeepsFront(u, w);
      assert false;
    } else {
      var r := StripSslMode(s[1..]);
      var t := StripSslMode(s);
      StripKeepsFirst(s);
      if |w| > 1 {
        assert t[..|w|][1..] == w[1..];
        assert t[..|w|][1..] == r[..|w| - 1];
        StripKeepsFront(s[1..], w[1..]);
        assert s[..|w|] == [s[0]] + s[1..][..|w| - 1];
      } else {
        assert s[..1] == [s[0]];
      }
    }
  }

  /** Putting a character in front of a clean string keeps it clean unless
      it makes a `?sslmode=` or `&sslmode=` at the front. */
  lemma ConsKeepsClean(c: char, r: string)
    requires NoSslMode(r)
    requires !((c == '?' || c == '&') && HasPrefix(r, "sslmode="))
    ensures NoSslMode([c] + r)
  {
    var t := [c] + r;
    forall i | 0 <= i < |t|
      ensures !SslModeAt(t, i)
    {
      if 0 < i && i + 9 <= |t| {
        assert t[i..i + 9] == r[i - 1..i - 1 + 9];
        assert !SslModeAt(r, i - 1);
      } else if i == 0 {
        FrontClean(c, r);
      }
    }
  }

  lemma FrontClean(c: char, r: string)
    requires !((c == '?' || c == '&') && HasPrefix(r, "sslmode="))
    ensures !SslModeAt([c] + r, 0)
  {
    var t := [c] + r;
    if 9 <= |t| {
      var w := t[..9];
      assert w[0] == c && w[1..] == r[..8];
      assert "?sslmode="[1..] == "sslmode=" && "&sslmode="[1..] == "sslmode=";
    }
  }

  lemma FrontMatch(s: string)
    requires |s| > 0 && (s[0] == '?' || s[0] == '&') && HasPrefix(s[1..], "sslmode=")
    ensures SslModeAt(s, 0)
  {
    assert s[..9] == [s[0]] + s[1..][..8];
  }

  /** No `?sslmode=` or `&sslmode=` survives the replacement, including one
      that removing another could have brought together. */
  lemma {:induction false} StripRemovesSslMode(s: string)
    ensures NoSslMode(StripSslMode(s))
    decreases |s|
  {
    if |s| == 0 {
    } else if SslModeAt(s, 0) {
      StripRemovesSslMode(SkipValue(s[9..]));
    } else {
      var r := StripSslMode(s[1..]);
      StripRemovesSslMode(s[1..]);
      if (s[0] == '?' || s[0] == '&') && HasPrefix(r, "sslmode=") {
        StripKeepsFront(s[1..], "sslmode=");
        FrontMatch(s);
        assert false;
      }
      ConsKeepsClean(s[0], r);
    }
  }

  /** A clean string stays clean without its first character. */
  lemma TailClean(s: string)
    requires NoSslMode(s) && |s| > 0
    ensures NoSslMode(s[1..])
  {
    forall i | 0 <= i < |s| - 1
      ensures !SslModeAt(s[1..], i)
    {
      if i + 10 <= |s| {
        assert s[1..][i..i + 9] == s[i + 1..i + 1 + 9];
        assert !SslModeAt(s, i + 1);
      }
    }
  }

  /** A URL without `sslmode` parameters passes through unchanged. */
  lemma {:induction false} StripKeepsCleanUrl(s: string)
    requires NoSslMode(s)
    ensures StripSslMode(s) == s
    decreases |s|
  {
    if |s| > 0 {
      assert !SslModeAt(s, 0);
      TailClean(s);
      StripKeepsCleanUrl(s[1..]);
      assert s == [s[0]] + s[1..];
    }
  }

  /** The value of a parameter ends at the first `&`. */
  lemma {:induction false} SkipValueStops(v: string, rest: string)
    requires '&' !in v && (rest == "" || rest[0] == '&')
    ensures SkipValue(v + rest) == rest
    decreases |v|
  {
    if |v| > 0 {
      assert (v + rest)[1..] == v[1..] + rest;
      SkipValueStops(v[1..], rest);
    }
  }

  /** No match can begin in a clean non-empty string and run into a
      parameter that follows it: `?` and `&` occur only first in a match. */
  lemma NoMatchAcross(base: string, x: string)
    requires NoSslMode(base) && |base| > 0 && |x| > 0 && (x[0] == '?' || x[0] == '&')
    ensures !SslModeAt(base + x, 0)
  {
    var t := base + x;
    if 9 <= |t| {
      if |base| >= 9 {
        assert t[..9] == base[..9];
        assert !SslModeAt(base, 0);
      } else {
        var w := t[..9];
        assert w[|base|] == x[0];
        assert forall k :: 1 <= k < 9 ==> "?sslmode="[k] != '?' && "?sslmode="[k] != '&';
        assert forall k :: 1 <= k < 9 ==> "&sslmode="[k] != '?' && "&sslmode="[k] != '&';
      }
    }
  }

  /** The two ways `StripSslMode` takes its first step. */
  lemma StripKeepsFirst(t: string)
    requires |t| > 0 && !SslModeAt(t, 0)
    ensures StripSslMode(t) == [t[0]] + StripSslMode(t[1..])
  {
  }

  lemma StripDropsMatch(t: string)
    requires SslModeAt(t, 0)
    ensures StripSslMode(t) == StripSslMode(SkipValue(t[9..]))
  {
  }

  /** A clean prefix is copied through untouched when a parameter follows. */
  lemma {:induction false} StripAfterCleanPrefix(base: string, x: string)
    requires NoSslMode(base) && |x| > 0 && (x[0] == '?' || x[0] == '&')
    ensures StripSslMode(base + x) == base + StripSslMode(x)
    decreases |base|
  {
    var t := base + x;
    if |base| > 0 {
      NoMatchAcross(base, x);
      StripKeepsFirst(t);
      TailClean(base);
      assert t[1..] == base[1..] + x;
      StripAfterCleanPrefix(base[1..], x);
      assert base + StripSslMode(x) == [base[0]] + (base[1..] + StripSslMode(x));
    } else {
      assert t == x;
    }
  }

  /** The text a parameter to remove starts with. */
  predicate IsSslModeKey(y: string) {
    y == "?sslmode=" || y == "&sslmode="
  }

  lemma StripAfterMatch(y: string, z: string)
    requires IsSslModeKey(y)
    ensures StripSslMode(y + z) == StripSslMode(SkipValue(z))
  {
    var x := y + z;
    assert x[..9] == y;
    StripDropsMatch(x);
    assert x[9..] == z;
  }

  /** A string that begins with an `sslmode` parameter loses it. */
  lemma StripLeadingParameter(y: string, v: string, rest: string)
    requires IsSslModeKey(y) && '&' !in v && (rest == "" || rest[0] == '&')
    ensures StripSslMode(y + v + rest) == StripSslMode(rest)
  {
    assert y + v + rest == y + (v + rest);
    StripAfterMatch(y, v + rest);
    SkipValueStops(v, rest);
  }

  /** One `sslmode` parameter after a clean prefix is removed up to the next
      `&`, and what follows is stripped in turn. */
  lemma {:induction false} StripParameter(base: string, y: string, v: string, rest: string)
    requires NoSslMode(base) && IsSslModeKey(y)
    requires '&' !in v && (rest == "" || rest[0] == '&')
    ensures StripSslMode(base + y + v + rest) == base + StripSslMode(rest)
  {
    var x := y + v + rest;
    assert base + y + v + rest == base + x;
    assert x[0] == y[0];
    StripAfterCleanPrefix(base, x);
    StripLeadingParameter(y, v, rest);
  }

  /** Dropping a last character creates no `sslmode` parameter. */
  lemma TrimKeepsClean(s: string)
    requires NoSslMode(s)
    ensures NoSslMode(TrimSeparator(s))
  {
    var t := TrimSeparator(s);
    forall i | 0 <= i < |t|
      ensures !SslModeAt(t, i)
    {
      if i + 9 <= |t| {
        assert t[i..i + 9] == s[i..i + 9];
        assert !SslModeAt(s, i);
      }
    }
  }

  /** The `url` option: `DATABASE_URL` without its `sslmode` parameters and
      without one trailing `?` or `&`. */
  function CleanUrl(databaseUrl: Option<string>): (r: string)
    ensures NoSslMode(r)
  {
    var url := if Truthy(databaseUrl) then databaseUrl.value else "";
    var stripped := StripSslMode(url);
    StripRemovesSslMode(url);
    TrimKeepsClean(stripped);
    TrimSeparator(stripped)
  }

  /** Cleaning twice is cleaning once, for a URL that does not end in a
      separator once cleaned. */
  lemma {:induction false} CleanUrlKeepsCleanUrl(url: string)
    requires NoSslMode(url) && (url == "" || (url[|url| - 1] != '?' && url[|url| - 1] != '&'))
    ensures CleanUrl(Some(url)) == url
  {
    StripKeepsCleanUrl(url);
  }

  /** `postgres://…/db?sslmode=require` connects to `postgres://…/db`. */
  lemma CleanUrlDropsSslMode(base: string, v: string)
    requires NoSslMode(base) && '&' !in v
    requires base == "" || (base[|base| - 1] != '?' && base[|base| - 1] != '&')
    ensures CleanUrl(Some(base + "?sslmode=" + v)) == base
  {
    assert base + "?sslmode=" + v == base + "?sslmode=" + v + "";
    StripParameter(base, "?sslmode=", v, "");
  }

  /** `…/db?sslmode=require&x=1` becomes `…/db&x=1`: the parameter is cut
      with its `?`, and the parameters after it are kept as they were. */
  lemma CleanUrlKeepsLaterParameters(base: string, v: string, rest: string)
    requires NoSslMode(base) && '&' !in v && NoSslMode(rest)
    requires |rest| > 0 && rest[0] == '&' && rest[|rest| - 1] != '?' && rest[|rest| - 1] != '&'
    ensures CleanUrl(Some(base + "?sslmode=" + v + rest)) == base + rest
  {
    StripParameter(base, "?sslmode=", v, rest);
    StripKeepsCleanUrl(rest);
  }
}
