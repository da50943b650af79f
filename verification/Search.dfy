/**
  The substring searches of the cluster transport, the redirect text they pick
  apart, and the address they normalise.
 */
module Search {
  import opened Bytes

  /** `sub` occurs in `s` at index `i`. */
  predicate MatchAt(s: string, sub: string, i: nat) {
    i + |sub| <= |s| && s[i..i + |sub|] == sub
  }

  /** The least index from `i` on at which `sub` occurs, or -1. */
  function FindFrom(s: string, sub: string, i: nat): (r: int)
    ensures r == -1 || (i <= r && MatchAt(s, sub, r))
    ensures forall j: nat :: i <= j && (r == -1 || j < r) ==> !MatchAt(s, sub, j)
    decreases |s| - i
  {
    if i + |sub| > |s| then -1 else if s[i..i + |sub|] == sub then i else FindFrom(s, sub, i + 1)
  }

  function Find(s: string, sub: string): int { FindFrom(s, sub, 0) }

  predicate Contains(s: string, sub: string) { Find(s, sub) >= 0 }

  /** `indexOf`: the search loop. */
  method IndexOf(s: string, sub: string) returns (r: int)
    ensures r == Find(s, sub)
  {
    var i := 0;
    while i + |sub| <= |s|
      invariant 0 <= i && FindFrom(s, sub, i) == Find(s, sub)
    {
      if s[i..i + |sub|] == sub {
        return i;
      }
      i := i + 1;
    }
    r := -1;
  }

  /** The least index from `i` on that holds one of `chars`, or -1. */
  function FindAnyFrom(s: string, chars: string, i: nat): (r: int)
    ensures r == -1 || (i <= r < |s| && s[r] in chars)
    ensures forall j :: i <= j < |s| && (r == -1 || j < r) ==> s[j] !in chars
    decreases |s| - i
  {
    if i >= |s| then -1 else if s[i] in chars then i else FindAnyFrom(s, chars, i + 1)
  }

  /** `indexAny`: the nested search loop. */
  method IndexAny(s: string, chars: string) returns (r: int)
    ensures r == FindAnyFrom(s, chars, 0)
  {
    var i := 0;
    while i < |s|
      invariant 0 <= i <= |s| && FindAnyFrom(s, chars, i) == FindAnyFrom(s, chars, 0)
    {
      var j := 0;
      while j < |chars|
        invariant 0 <= j <= |chars| && s[i] !in chars[..j]
      {
        if s[i] == chars[j] {
          return i;
        }
        assert chars[..j + 1] == chars[..j] + [chars[j]];
        j := j + 1;
      }
      assert chars[..j] == chars;
      i := i + 1;
    }
    r := -1;
  }

  const NOT_LEADER := "not-leader"
  const LEADER_IS := "leader="
  const DELIMITERS := " \"'"

  /** `redirectLeader` on an error's text: the advertised leader (possibly empty), or no redirect at all. */
  function RedirectLeader(msg: string): Option<string> {
    if !Contains(msg, NOT_LEADER) then None
    else
      var i := Find(msg, LEADER_IS);
      if i < 0 then Some("")
      else
        var rest := msg[i + |LEADER_IS|..];
        var sp := FindAnyFrom(rest, DELIMITERS, 0);
        Some(if sp >= 0 then rest[..sp] else rest)
  }

  /** A text is a redirect exactly when it contains "not-leader"; one without "leader=" names no address. */
  lemma RedirectCases(msg: string)
    ensures RedirectLeader(msg).Some? <==> Contains(msg, "not-leader")
    ensures Contains(msg, "not-leader") && !Contains(msg, "leader=") ==> RedirectLeader(msg) == Some("")
  {
    hide Find;
  }

  /** The address ends at the first blank or quote. */
  lemma DelimitersAre(c: char)
    ensures c in DELIMITERS <==> c == ' ' || c == '"' || c == '\''
  {
  }

  lemma FindIs(s: string, sub: string, r: nat)
    requires MatchAt(s, sub, r) && forall j: nat :: j < r ==> !MatchAt(s, sub, j)
    ensures Find(s, sub) == r
  {
  }

  /** The redirect gives back exactly the address that was put into it. */
  lemma RedirectRecovers(pre: string, addr: string, rest: string)
    requires !Contains(pre, LEADER_IS)
    requires forall i :: 0 <= i < |addr| ==> addr[i] !in DELIMITERS
    requires rest == "" || rest[0] in DELIMITERS
    ensures RedirectLeader(pre + "not-leader leader=" + addr + rest) == Some(addr)
  {
    hide MatchAt, FindAnyFrom, Find;
    var msg := pre + MARK + addr + rest;
    MarkIsThere(pre, addr, rest);
    forall j: nat | j < |pre| + 11 ensures !MatchAt(msg, LEADER_IS, j) {
      NoEarlierMark(pre, addr, rest, j);
    }
    FindIs(msg, LEADER_IS, |pre| + 11);
    CutAtDelimiter(addr, rest);
  }

  const MARK := "not-leader leader="

  lemma MarkIsThere(pre: string, addr: string, rest: string)
    ensures var msg := pre + MARK + addr + rest;
            && Contains(msg, NOT_LEADER) && MatchAt(msg, LEADER_IS, |pre| + 11)
            && msg[|pre| + 18..] == addr + rest
  {
    var msg := pre + MARK + addr + rest;
    var p := |pre|;
    assert msg[p..p + 18] == MARK;
    assert MatchAt(msg, NOT_LEADER, p) by {
      assert msg[p..p + 10] == MARK[..10] == NOT_LEADER;
    }
    assert MatchAt(msg, LEADER_IS, p + 11) by {
      assert msg[p + 11..p + 18] == MARK[11..18] == LEADER_IS;
    }
  }

  lemma CutAtDelimiter(addr: string, rest: string)
    requires forall i :: 0 <= i < |addr| ==> addr[i] !in DELIMITERS
    requires rest == "" || rest[0] in DELIMITERS
    ensures var sp := FindAnyFrom(addr + rest, DELIMITERS, 0);
            addr == if sp >= 0 then (addr + rest)[..sp] else addr + rest
  {
    var tail := addr + rest;
    var sp := FindAnyFrom(tail, DELIMITERS, 0);
    if rest == "" {
      assert tail == addr;
    } else {
      assert tail[|addr|] == rest[0];
      assert forall j :: 0 <= j < |addr| ==> tail[j] == addr[j];
      assert sp == |addr|;
      assert tail[..sp] == addr;
    }
  }

  /** "leader=" ends in its only '=', and the only '=' so far ends the mark itself. */
  lemma NoEarlierMark(pre: string, addr: string, rest: string, j: nat)
    requires !Contains(pre, LEADER_IS) && j < |pre| + 11
    ensures !MatchAt(pre + "not-leader leader=" + addr + rest, LEADER_IS, j)
  {
    var mark := "not-leader leader=";
    var msg := pre + mark + addr + rest;
    if MatchAt(msg, LEADER_IS, j) {
      var s := msg[j..j + 7];
      assert s[6] == '=' && msg[j + 6] == s[6];
      if j + 7 <= |pre| {
        assert pre[j..j + 7] == s;
        assert MatchAt(pre, LEADER_IS, j);
      }
    }
  }

  /** `dialAddr`: the scheme and any path removed. */
  function DialAddr(addr: string): (r: string)
    ensures '/' !in r
  {
    var i := Find(addr, "://");
    var a := if i >= 0 then addr[i + 3..] else addr;
    var sl := Find(a, "/");
    if sl >= 0 then
      CutIsSlashFree(a, sl);
      a[..sl]
    else
      NoSlash(a);
      a
  }

  lemma NoSlash(a: string)
    requires Find(a, "/") < 0
    ensures '/' !in a
  {
    if '/' in a {
      var k :| 0 <= k < |a| && a[k] == '/';
      assert a[k..k + 1] == "/";
      assert MatchAt(a, "/", k);
    }
  }

  lemma CutIsSlashFree(a: string, sl: nat)
    requires Find(a, "/") == sl
    ensures sl <= |a| && '/' !in a[..sl]
  {
    if '/' in a[..sl] {
      var k :| 0 <= k < sl && a[k] == '/';
      assert a[k..k + 1] == "/";
      assert MatchAt(a, "/", k);
    }
  }

  lemma NoMatchHere(s: string, sub: string, j: nat)
    requires j < |s| && sub != "" && s[j] != sub[0]
    ensures !MatchAt(s, sub, j)
  {
    assert j + |sub| <= |s| ==> s[j..j + |sub|][0] == s[j];
  }

  lemma NoMatchWithout(s: string, sub: string, c: char)
    requires c !in s && c in sub
    ensures Find(s, sub) == -1
  {
  }

  /** An address with a scheme gives its host, with or without a path. */
  lemma DialAddrHost(scheme: string, host: string, path: string)
    requires ':' !in scheme && '/' !in scheme && '/' !in host && (path == "" || path[0] == '/')
    ensures DialAddr(scheme + "://" + host + path) == host
  {
    hide Find;
    var addr := scheme + "://" + host + path;
    var n := |scheme|;
    assert addr[n..n + 3] == "://";
    assert MatchAt(addr, "://", n);
    forall j: nat | j < n ensures !MatchAt(addr, "://", j) {
      assert addr[j] == scheme[j];
      NoMatchHere(addr, "://", j);
    }
    FindIs(addr, "://", n);
    assert addr[n + 3..] == host + path;
    CutAtSlash(host, path);
  }

  /** One without a scheme gives what comes before its path. */
  lemma DialAddrPlain(host: string, path: string)
    requires '/' !in host && (path == "" || path[0] == '/') && !Contains(host + path, "://")
    ensures DialAddr(host + path) == host
  {
    hide Find;
    CutAtSlash(host, path);
  }

  lemma CutAtSlash(host: string, path: string)
    requires '/' !in host && (path == "" || path[0] == '/')
    ensures var a := host + path;
            var sl := Find(a, "/");
            host == if sl >= 0 then a[..sl] else a
  {
    var a := host + path;
    if path == "" {
      assert a == host;
      NoMatchWithout(a, "/", '/');
    } else {
      var n := |host|;
      assert a[n..n + 1] == "/";
      assert MatchAt(a, "/", n);
      forall j: nat | j < n ensures !MatchAt(a, "/", j) {
        assert a[j] == host[j];
        NoMatchHere(a, "/", j);
      }
      FindIs(a, "/", n);
      assert a[..n] == host;
    }
  }

  /** A normalised address is left alone. */
  lemma DialAddrIdempotent(addr: string)
    ensures DialAddr(DialAddr(addr)) == DialAddr(addr)
  {
    var r := DialAddr(addr);
    NoMatchWithout(r, "://", '/');
    NoMatchWithout(r, "/", '/');
  }
}
