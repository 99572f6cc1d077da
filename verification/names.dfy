/**
 How a service and a method name travel in a URL: the client appends them to the
 address (rpc/client.go), the server takes them from the last path element
 (rpc/server.go).
 */
module Names {
  import opened Wrappers

  /** strings.TrimRight(s, "/") */
  function TrimSlashes(s: string): string {
    if s != "" && s[|s| - 1] == '/' then TrimSlashes(s[..|s| - 1]) else s
  }

  /** What follows the last slash. */
  function AfterSlash(s: string): string {
    if s == "" || s[|s| - 1] == '/' then "" else AfterSlash(s[..|s| - 1]) + [s[|s| - 1]]
  }

  /** path.Base */
  function Base(path: string): string {
    if path == "" then "."
    else
      var name := AfterSlash(TrimSlashes(path));
      if name == "" then "/" else name
  }

  /** strings.SplitN(s, ".", 2), if it yields two parts. */
  function SplitDot(s: string): Option<(string, string)> {
    if s == "" then None
    else if s[0] == '.' then Some(("", s[1..]))
    else
      match SplitDot(s[1..])
      case None => None
      case Some((a, b)) => Some(([s[0]] + a, b))
  }

  /** The URL of a call. */
  function Url(addr: string, prefix: string, service: string, method_: string): string {
    TrimSlashes(addr) + prefix + service + "." + method_
  }

  /** A URL's path ends where its query or fragment begins. */
  function Cut(s: string): string {
    if s == "" || s[0] == '?' || s[0] == '#' then "" else [s[0]] + Cut(s[1..])
  }

  function HexValue(ch: char): Option<nat> {
    if '0' <= ch <= '9' then Some((ch - '0') as nat)
    else if 'a' <= ch <= 'f' then Some((ch - 'a') as nat + 10)
    else if 'A' <= ch <= 'F' then Some((ch - 'A') as nat + 10)
    else None
  }

  /** Percent-decoding; a malformed escape makes the URL invalid. */
  function Unescape(s: string): Option<string> {
    if s == "" then Some("")
    else if s[0] != '%' then
      match Unescape(s[1..])
      case None => None
      case Some(t) => Some([s[0]] + t)
    else if |s| < 3 || HexValue(s[1]).None? || HexValue(s[2]).None? then None
    else
      match Unescape(s[3..])
      case None => None
      case Some(t) => Some([(16 * HexValue(s[1]).value + HexValue(s[2]).value) as char] + t)
  }

  /** An ASCII control character. */
  predicate Control(ch: char) {
    ch < ' ' || ch == '\U{7F}'
  }

  /** The first element of a path that has lost its leading slash. */
  function Head(s: string): string {
    if s == "" || s[0] == '/' then "" else [s[0]] + Head(s[1..])
  }

  /** An element that path cleaning would remove; an empty one may come last. */
  predicate Untidy(s: string) {
    Head(s) == "." || Head(s) == ".." || (Head(s) == "" && s != "")
  }

  /** The path is rooted and http.ServeMux has nothing to clean in it. */
  predicate Tidy(path: string) {
    path != "" && path[0] == '/' && forall i | 0 <= i < |path| && path[i] == '/' :: !Untidy(path[i + 1..])
  }

  /**
   The path with which a request for `target`, a URL without scheme and host, gets to the server. There is none if
   the client's parser rejects the URL, or if the mux in front of the server redirects the request to a cleaner path.
   */
  function Received(target: string): Option<string> {
    if exists ch | ch in target :: Control(ch) then None
    else
      match Unescape(Cut(target))
      case None => None
      case Some(path) => if Tidy(path) then Some(path) else None
  }

  /** The same for a URL that starts with the given scheme and host. */
  function PathOf(origin: string, url: string): Option<string>
    requires |origin| <= |url|
  {
    Received(url[|origin|..])
  }

  /** No ASCII control character: those are the codes below 32, and 127. */
  ghost predicate Printable(ch: char) {
    32 <= ch as int != 127
  }

  /** No character that a URL parser would interpret or reject. */
  ghost predicate Plain(s: string) {
    '?' !in s && '#' !in s && '%' !in s && forall ch | ch in s :: Printable(ch)
  }

  lemma {:induction false} HeadAppend(s: string, t: string)
    ensures '/' in s ==> Head(s + t) == Head(s)
    ensures '/' !in s ==> Head(s) == s
  {
    if s != "" && s[0] != '/' {
      assert (s + t)[1..] == s[1..] + t;
      HeadAppend(s[1..], t);
      assert s == [s[0]] + s[1..];
    }
  }

  lemma TidyBefore(lead: string, name: string, i: nat)
    requires Tidy(lead + "/") && i < |lead| && lead[i] == '/'
    ensures !Untidy((lead + "/" + name)[i + 1..])
  {
    var rest := lead[i + 1..] + "/";
    assert (lead + "/")[i] == '/' && (lead + "/")[i + 1..] == rest;
    assert (lead + "/" + name)[i + 1..] == rest + name && rest[|rest| - 1] == '/';
    HeadAppend(rest, name);
  }

  /** A path that goes on after a tidy one is tidy unless its last element is one that cleaning removes. */
  lemma TidyExactly(lead: string, name: string)
    requires Tidy(lead + "/") && '/' !in name
    ensures Tidy(lead + "/" + name) <==> name != "." && name != ".."
  {
    var path := lead + "/" + name;
    var n := |lead|;
    assert path[0] == (lead + "/")[0] && path[n] == '/' && path[n + 1..] == name;
    assert forall i | n < i < |path| :: path[i] == name[i - n - 1];
    HeadAppend(name, "");
    assert Untidy(name) <==> name == "." || name == "..";
    if !Untidy(name) {
      forall i | 0 <= i < |path| && path[i] == '/' ensures !Untidy(path[i + 1..]) {
        if i < n {
          TidyBefore(lead, name, i);
        }
      }
    }
  }

  // ---- What decoding and cleaning are ----

  const LOWER := "0123456789abcdef"
  const UPPER := "0123456789ABCDEF"

  /** What percent-encoding writes for the byte `16 * hi + lo`, with digits in either case. */
  function Digits(hi: nat, lo: nat, upper: bool): string
    requires hi < 16 && lo < 16
  {
    if upper then ['%', UPPER[hi], UPPER[lo]] else ['%', LOWER[hi], LOWER[lo]]
  }

  lemma HexDigits(i: nat)
    requires i < 16
    ensures HexValue(LOWER[i]) == Some(i) == HexValue(UPPER[i])
  {
    if i < 10 {
      assert LOWER[i] == UPPER[i] == ('0' as int + i) as char;
    } else {
      assert LOWER[i] == ('a' as int + i - 10) as char && UPPER[i] == ('A' as int + i - 10) as char;
    }
  }

  /** Decoding undoes percent-encoding: of every byte, with digits in either case, before anything that decodes. */
  lemma UnescapeDigits(hi: nat, lo: nat, upper: bool, rest: string)
    requires hi < 16 && lo < 16 && Unescape(rest).Some?
    ensures Unescape(Digits(hi, lo, upper) + rest) == Some([(16 * hi + lo) as char] + Unescape(rest).value)
  {
    HexDigits(hi);
    HexDigits(lo);
    var s := Digits(hi, lo, upper) + rest;
    assert s[3..] == rest;
    assert HexValue(s[1]) == Some(hi) && HexValue(s[2]) == Some(lo);
  }

  /** And only hexadecimal digits make an escape. */
  lemma EscapeExactly(s: string)
    requires |s| >= 3 && s[0] == '%'
    ensures Unescape(s).Some? <==> s[1] in LOWER + UPPER && s[2] in LOWER + UPPER && Unescape(s[3..]).Some?
  {
    HexExactly(s[1]);
    HexExactly(s[2]);
  }

  lemma HexExactly(ch: char)
    ensures HexValue(ch).Some? <==> ch in LOWER + UPPER
  {
    if HexValue(ch).Some? {
      HexDigits(HexValue(ch).value);
      var i := HexValue(ch).value;
      assert ch == LOWER[i] || ch == UPPER[i];
      assert LOWER[i] in LOWER + UPPER && UPPER[i] in LOWER + UPPER;
    } else {
      forall i | 0 <= i < 16 ensures ch != LOWER[i] && ch != UPPER[i] {
        HexDigits(i);
      }
    }
  }

  /** A rooted path of the given elements. */
  function Joined(es: seq<string>): string {
    if es == [] then "" else "/" + es[0] + Joined(es[1..])
  }

  /** A path is tidy exactly if none of its elements is one or two dots, and none but the last is empty. */
  lemma {:induction false} TidyMeans(es: seq<string>)
    requires es != [] && forall e | e in es :: '/' !in e
    ensures Tidy(Joined(es)) <==>
      forall i | 0 <= i < |es| :: es[i] != "." && es[i] != ".." && (es[i] == "" ==> i == |es| - 1)
  {
    var e, rest := es[0], Joined(es[1..]);
    TidyCons(e, rest);
    if |es| > 1 {
      TidyMeans(es[1..]);
      assert forall i | 0 < i < |es| :: es[i] == es[1..][i - 1];
    }
  }

  lemma TidyCons(e: string, t: string)
    requires '/' !in e && (t != "" ==> t[0] == '/')
    ensures Tidy("/" + e + t) <==> e != "." && e != ".." && (e == "" ==> t == "") && (t != "" ==> Tidy(t))
  {
    var path := "/" + e + t;
    HeadBefore(e, t);
    assert path[1..] == e + t;
    assert forall i | 0 < i <= |e| :: path[i] == e[i - 1];
    if t != "" {
      forall i | 0 <= i < |t| ensures path[i + 1 + |e|] == t[i] && path[i + 1 + |e| + 1..] == t[i + 1..] {}
      if Tidy(path) {
        forall i | 0 <= i < |t| && t[i] == '/' ensures !Untidy(t[i + 1..]) {
          assert path[i + 1 + |e|] == '/';
        }
      }
      if Tidy(t) && !Untidy(e + t) {
        forall i | 0 <= i < |path| && path[i] == '/' ensures !Untidy(path[i + 1..]) {
          if i > |e| {
            assert t[i - 1 - |e|] == '/';
          }
        }
      }
    } else {
      assert forall i | 0 < i < |path| :: path[i] == e[i - 1];
    }
  }

  lemma {:induction false} HeadBefore(e: string, t: string)
    requires '/' !in e && (t != "" ==> t[0] == '/')
    ensures Head(e + t) == e
  {
    if e != "" {
      assert (e + t)[1..] == e[1..] + t;
      HeadBefore(e[1..], t);
      assert e == [e[0]] + e[1..];
    }
  }

  /** What the client may call a service and a method. */
  ghost predicate Nameable(service: string, method_: string) {
    && '.' !in service && '/' !in service + method_ && Plain(service + method_)
    && !(service == "" && (method_ == "" || method_ == "."))
  }

  lemma {:induction false} CutAppend(s: string, t: string)
    requires Plain(s)
    ensures Cut(s + t) == s + Cut(t)
  {
    if s == "" {
      assert s + t == t;
    } else {
      assert (s + t)[1..] == s[1..] + t;
      CutAppend(s[1..], t);
    }
  }

  lemma {:induction false} CutIsPrefix(s: string)
    ensures Cut(s) <= s && '?' !in Cut(s) && '#' !in Cut(s) && (Plain(s) ==> Cut(s) == s)
  {
    if s != "" {
      CutIsPrefix(s[1..]);
    }
  }

  lemma {:induction false} UnescapeAppend(s: string, t: string)
    requires Plain(s)
    ensures Unescape(s + t) == match Unescape(t) case None => None case Some(u) => Some(s + u)
  {
    if s == "" {
      assert s + t == t && (Unescape(t).Some? ==> s + Unescape(t).value == Unescape(t).value);
    } else {
      assert (s + t)[1..] == s[1..] + t;
      UnescapeAppend(s[1..], t);
      assert Unescape(t).Some? ==> [s[0]] + (s[1..] + Unescape(t).value) == s + Unescape(t).value;
    }
  }

  /** Every escape shortens the string. */
  lemma {:induction false} UnescapeShortens(s: string)
    ensures '%' !in s ==> Unescape(s) == Some(s)
    ensures Unescape(s).Some? ==> |Unescape(s).value| <= |s| && ('%' in s ==> |Unescape(s).value| < |s|)
  {
    if s != "" {
      if s[0] != '%' {
        UnescapeShortens(s[1..]);
        assert s == [s[0]] + s[1..];
      } else if |s| >= 3 {
        UnescapeShortens(s[3..]);
      }
    }
  }

  lemma {:induction false} TrimAppend(origin: string, dir: string)
    requires origin != "" && origin[|origin| - 1] != '/'
    ensures TrimSlashes(origin + dir) == origin + TrimSlashes(dir)
  {
    if dir == "" {
      assert origin + dir == origin;
    } else {
      var all := origin + dir;
      assert all[|all| - 1] == dir[|dir| - 1];
      if dir[|dir| - 1] == '/' {
        assert all[..|all| - 1] == origin + dir[..|dir| - 1];
        TrimAppend(origin, dir[..|dir| - 1]);
      }
    }
  }

  lemma {:induction false} TrimPlain(s: string)
    ensures TrimSlashes(s) <= s
  {
    if s != "" && s[|s| - 1] == '/' {
      TrimPlain(s[..|s| - 1]);
    }
  }

  lemma {:induction false} AfterLastSlash(lead: string, name: string)
    requires '/' !in name
    ensures AfterSlash(lead + "/" + name) == name
  {
    var s := lead + "/" + name;
    if name != "" {
      assert s[..|s| - 1] == lead + "/" + name[..|name| - 1];
      AfterLastSlash(lead, name[..|name| - 1]);
    }
  }

  lemma BaseOf(lead: string, name: string)
    requires '/' !in name && name != ""
    ensures Base(lead + "/" + name) == name
  {
    var s := lead + "/" + name;
    assert s[|s| - 1] == name[|name| - 1];
    AfterLastSlash(lead, name);
  }

  /** The last element of a path is made of its characters and has no slash. */
  lemma {:induction false} AfterSlashChars(s: string)
    ensures '/' !in AfterSlash(s) && forall ch | ch in AfterSlash(s) :: ch in s
  {
    if s != "" && s[|s| - 1] != '/' {
      AfterSlashChars(s[..|s| - 1]);
    }
  }

  lemma BaseChars(path: string)
    requires path != ""
    ensures Base(path) == "/" || ('/' !in Base(path) && forall ch | ch in Base(path) :: ch in path)
  {
    TrimPlain(path);
    AfterSlashChars(TrimSlashes(path));
  }

  /** Splitting at the first dot undoes joining exactly when the left part has none. */
  lemma {:induction false} SplitJoin(a: string, b: string)
    ensures SplitDot(a + "." + b) == Some((a, b)) <==> '.' !in a
    ensures SplitDot(a + "." + b).Some?
  {
    var s := a + "." + b;
    if a == "" {
      assert s[1..] == b;
    } else {
      assert s[1..] == a[1..] + "." + b;
      SplitJoin(a[1..], b);
      assert s[0] == a[0] && a == [a[0]] + a[1..];
      if a[0] != '.' && SplitDot(s[1..]).value.0 == a[1..] {
        assert [s[0]] + a[1..] == a;
      }
    }
  }

  lemma {:induction false} SplitIsJoined(s: string)
    ensures var r := SplitDot(s); r.Some? ==> s == r.value.0 + "." + r.value.1
  {
    if s != "" && s[0] != '.' {
      SplitIsJoined(s[1..]);
      assert s == [s[0]] + s[1..];
    }
  }

  /** The part after a slash holds the last element, unless it is nothing but slashes. */
  lemma BaseWithin(lead: string, t: string)
    requires exists ch :: ch in t && ch != '/'
    ensures |Base(lead + "/" + t)| <= |t|
  {
    var path := lead + "/" + t;
    TrimTail(lead + "/", t);
    TrimPlain(t);
    var t' := TrimSlashes(t);
    assert TrimSlashes(path) == lead + "/" + t';
    AfterSlashShort(lead, t');
  }

  lemma {:induction false} TrimTail(s: string, t: string)
    requires exists ch :: ch in t && ch != '/'
    ensures TrimSlashes(s + t) == s + TrimSlashes(t) && TrimSlashes(t) != ""
  {
    var all := s + t;
    assert all[|all| - 1] == t[|t| - 1];
    if t[|t| - 1] == '/' {
      assert all[..|all| - 1] == s + t[..|t| - 1];
      assert t == t[..|t| - 1] + [t[|t| - 1]];
      TrimTail(s, t[..|t| - 1]);
    }
  }

  lemma {:induction false} AfterSlashShort(lead: string, t: string)
    ensures |AfterSlash(lead + "/" + t)| <= |t|
  {
    if t != "" {
      var s := lead + "/" + t;
      assert s[..|s| - 1] == lead + "/" + t[..|t| - 1];
      AfterSlashShort(lead, t[..|t| - 1]);
    }
  }

  /**
   The server finds the name in its path exactly if the name has no slash and nothing that a URL parser interprets
   or rejects, and is no element that path cleaning removes.
   */
  lemma BaseExactly(lead: string, name: string)
    requires Plain(lead) && Tidy(lead + "/") && '.' in name
    ensures var path := Received(lead + "/" + name);
      path.Some? && Base(path.value) == name <==> '/' !in name && Plain(name) && name != "." && name != ".."
  {
    if exists ch | ch in lead + "/" + name :: Control(ch) {
      assert !Plain(name);
    } else {
      forall ch | ch in name ensures Printable(ch) {
        assert ch in lead + "/" + name && !Control(ch);
      }
      DecodedExactly(lead, name);
    }
  }

  lemma DecodedExactly(lead: string, name: string)
    requires Plain(lead) && Tidy(lead + "/") && '.' in name && forall ch | ch in name :: Printable(ch)
    ensures var path := Unescape(Cut(lead + "/" + name));
      && (path.Some? && Base(path.value) == name <==> '/' !in name && Plain(name))
      && (path.Some? && Base(path.value) == name ==> (Tidy(path.value) <==> name != "." && name != ".."))
  {
    assert lead + "/" + name == (lead + "/") + name;
    CutAppend(lead + "/", name);
    CutIsPrefix(name);
    UnescapeAppend(lead + "/", Cut(name));
    UnescapeShortens(Cut(name));
    if Unescape(Cut(name)).Some? {
      var u := Unescape(Cut(name)).value;
      BaseChars(lead + "/" + u);
      if exists ch :: ch in u && ch != '/' {
        BaseWithin(lead, u);
      }
    }
    if '/' !in name && Plain(name) {
      BaseOf(lead, name);
      TidyExactly(lead, name);
    }
  }

  lemma DotsOnly(service: string, method_: string)
    requires '.' !in service
    ensures var name := service + "." + method_;
      name == "." || name == ".." <==> service == "" && (method_ == "" || method_ == ".")
  {
    var name := service + "." + method_;
    if service != "" {
      assert name[0] == service[0];
    } else {
      assert name == "." + method_ && name[1..] == method_;
    }
  }

  lemma ParsedExactly(lead: string, service: string, method_: string)
    requires Plain(lead) && Tidy(lead + "/")
    ensures var path := Received(lead + "/" + (service + "." + method_));
      path.Some? && SplitDot(Base(path.value)) == Some((service, method_)) <==> Nameable(service, method_)
  {
    var name := service + "." + method_;
    assert name[|service|] == '.';
    BaseExactly(lead, name);
    SplitJoin(service, method_);
    if '.' !in service {
      DotsOnly(service, method_);
    }
    var path := Received(lead + "/" + name);
    if path.Some? {
      SplitIsJoined(Base(path.value));
    }
    NameChars(service, method_);
  }

  lemma NameChars(service: string, method_: string)
    ensures var name := service + "." + method_;
      ('/' !in name <==> '/' !in service + method_) && (Plain(name) <==> Plain(service + method_))
  {
    var name := service + "." + method_;
    assert forall ch | ch != '.' :: ch in name <==> ch in service + method_;
  }

  /** What the URL of a call has after scheme and host. */
  lemma Target(origin: string, dir: string, prefix: string, service: string, method_: string) returns (lead: string)
    requires origin != "" && origin[|origin| - 1] != '/'
    requires prefix != "" && prefix[|prefix| - 1] == '/'
    requires Plain(dir) && Plain(prefix)
    ensures Plain(lead) && lead + "/" == TrimSlashes(dir) + prefix
    ensures var url := Url(origin + dir, prefix, service, method_);
      |origin| <= |url| && url[|origin|..] == lead + "/" + (service + "." + method_)
  {
    TrimAppend(origin, dir);
    TrimPlain(dir);
    lead := TrimSlashes(dir) + prefix[..|prefix| - 1];
    assert forall ch | ch in lead :: ch in dir || ch in prefix;
    assert prefix == prefix[..|prefix| - 1] + "/";
  }

  /**
   For every address (scheme and host, then a path), every slash-terminated prefix under which the
   server is mounted, and all names, the pair the server parses from the client's URL is the pair the
   client named exactly when the service name has no dot, neither name has a slash or a character that
   a URL parser interprets or rejects, and the two together are not one or two dots.
   */
  lemma NameRoundTrip(origin: string, dir: string, prefix: string, service: string, method_: string)
    requires origin != "" && origin[|origin| - 1] != '/'
    requires prefix != "" && prefix[|prefix| - 1] == '/'
    requires Plain(dir) && Plain(prefix) && Tidy(TrimSlashes(dir) + prefix)
    ensures |origin| <= |Url(origin + dir, prefix, service, method_)|
    ensures var path := PathOf(origin, Url(origin + dir, prefix, service, method_));
      path.Some? && SplitDot(Base(path.value)) == Some((service, method_)) <==> Nameable(service, method_)
  {
    var lead := Target(origin, dir, prefix, service, method_);
    ParsedExactly(lead, service, method_);
  }
}
