/** Connection URLs of several hops, `id1#password1/id2#password2/...`, and the requests that
    connecting along one sends. */
module Urls {
  import opened Options

  datatype Hop = Hop(id: string, password: string)

  /** A CONNECT message, and the password that answers a challenge to it. */
  datatype Request = Request(id: string, password: string)

  const PREFIX := "hn://"

  /* ---- What a URL says ---- */

  function NoSpaces(s: string): string {
    if s == [] then []
    else NoSpaces(s[..|s| - 1]) + if s[|s| - 1] == ' ' then [] else [s[|s| - 1]]
  }

  function Strip(s: string): string {
    if PREFIX <= s then s[|PREFIX|..] else s
  }

  /** The first place of `c`, or the length. */
  function Find(s: string, c: char): (n: nat)
    ensures n <= |s|
    ensures forall i :: 0 <= i < n ==> s[i] != c
    ensures n < |s| ==> s[n] == c
  {
    if s == [] || s[0] == c then 0 else 1 + Find(s[1..], c)
  }

  /** What strtok makes of it: the stretches between slashes, empty ones left out. */
  function Parts(s: string): seq<string>
    decreases |s|
  {
    if s == [] then []
    else if s[0] == '/' then Parts(s[1..])
    else
      var n := Find(s, '/');
      [s[..n]] + Parts(s[n..])
  }

  /** A password is split off at the first `#`, unless the part starts with it. */
  function HopOf(part: string): Hop {
    var n := Find(part, '#');
    if 0 < n < |part| then Hop(part[..n], part[n + 1..]) else Hop(part, "")
  }

  function HopsOf(parts: seq<string>): (h: seq<Hop>)
    ensures |h| == |parts|
  {
    seq(|parts|, i requires 0 <= i < |parts| => HopOf(parts[i]))
  }

  function Hops(url: string): seq<Hop> {
    HopsOf(Parts(Strip(NoSpaces(url))))
  }

  /** One request for each hop but the first, with the password of the hop that it is sent to. */
  function Requests(hops: seq<Hop>): (r: seq<Request>)
    ensures |r| == if hops == [] then 0 else |hops| - 1
  {
    seq(if hops == [] then 0 else |hops| - 1,
        i requires 0 <= i < |hops| - 1 => Request(hops[i + 1].id, hops[i].password))
  }

  /* ---- Laws, which leave no choice ---- */

  /** Spaces go, wherever they are, and nothing else does. */
  lemma SpacesGo(a: string, b: string)
    ensures ' ' !in NoSpaces(a)
    ensures ' ' !in a ==> NoSpaces(a) == a
    ensures NoSpaces(a + " " + b) == NoSpaces(a + b)
  {
    hide NoSpaces;
    SpacesGone(a);
    SpaceSkipped(a, b);
  }

  lemma {:induction false} SpacesGone(a: string)
    ensures ' ' !in NoSpaces(a)
    ensures ' ' !in a ==> NoSpaces(a) == a
    decreases |a|
  {
    if a != [] {
      SpacesGone(a[..|a| - 1]);
      assert a == a[..|a| - 1] + [a[|a| - 1]];
    }
  }

  lemma {:induction false} SpaceSkipped(a: string, b: string)
    ensures NoSpaces(a + " " + b) == NoSpaces(a + b)
    decreases |b|
  {
    if b != [] {
      hide NoSpaces;
      SpaceSkipped(a, b[..|b| - 1]);
      MoreSpaces(a + " ", b);
      MoreSpaces(a, b);
    } else {
      assert (a + " " + b)[..|a|] == a == a + b;
    }
  }

  lemma MoreSpaces(a: string, b: string)
    requires b != []
    ensures NoSpaces(a + b) == NoSpaces(a + b[..|b| - 1]) + if b[|b| - 1] == ' ' then [] else [b[|b| - 1]]
  {
    assert (a + b)[..|a + b| - 1] == a + b[..|b| - 1];
  }

  lemma {:induction false} FindIs(s: string, c: char, n: nat)
    requires n <= |s| && (forall i :: 0 <= i < n ==> s[i] != c) && (n < |s| ==> s[n] == c)
    ensures Find(s, c) == n
  {
  }

  /** Slashes in front are skipped, and a part in front of a slash is cut off there. */
  lemma PartsAreCut(p: string, rest: string)
    ensures Parts("") == [] && Parts("/" + rest) == Parts(rest)
    ensures p != "" && '/' !in p ==> Parts(p) == [p] && Parts(p + "/" + rest) == [p] + Parts(rest)
  {
    assert ("/" + rest)[1..] == rest;
    if p != "" && '/' !in p {
      FindIs(p, '/', |p|);
      assert p[..|p|] == p && p[|p|..] == [];
      var s := p + "/" + rest;
      FindIs(s, '/', |p|);
      assert s[..|p|] == p && s[|p|..][1..] == rest && s[|p|..][0] == '/';
    }
  }

  /** A part is cut at its first hash sign, unless it starts with one. */
  lemma HopIsCut(id: string, password: string)
    requires '#' !in id
    ensures HopOf(id) == Hop(id, "") && HopOf("#" + password) == Hop("#" + password, "")
    ensures id != "" ==> HopOf(id + "#" + password) == Hop(id, password)
  {
    FindIs(id, '#', |id|);
    FindIs("#" + password, '#', 0);
    var part := id + "#" + password;
    FindIs(part, '#', |id|);
    assert part[..|id|] == id && part[|id| + 1..] == password;
  }

  /* ---- Reading back a written URL ---- */

  function PartOf(h: Hop): string {
    if h.password == "" then h.id else h.id + "#" + h.password
  }

  function Render(hops: seq<Hop>): string {
    if hops == [] then "" else if |hops| == 1 then PartOf(hops[0]) else PartOf(hops[0]) + "/" + Render(hops[1..])
  }

  predicate Clean(h: Hop) {
    && h.id != "" && '#' !in h.id && '/' !in h.id && ' ' !in h.id
    && '/' !in h.password && ' ' !in h.password
  }

  lemma PartReadBack(h: Hop)
    requires Clean(h)
    ensures HopOf(PartOf(h)) == h && PartOf(h) != "" && '/' !in PartOf(h) && ' ' !in PartOf(h)
  {
    HopIsCut(h.id, h.password);
  }

  lemma HopsOfMore(part: string, parts: seq<string>)
    ensures HopsOf([part] + parts) == [HopOf(part)] + HopsOf(parts)
  {
  }

  lemma {:induction false} PartsReadBack(hops: seq<Hop>)
    requires forall h <- hops :: Clean(h)
    ensures HopsOf(Parts(Render(hops))) == hops
    decreases |hops|
  {
    hide Clean, PartOf, HopOf;
    if hops != [] {
      var p, rest := PartOf(hops[0]), hops[1..];
      PartReadBack(hops[0]);
      PartsReadBack(rest);
      PartsAreCut(p, Render(rest));
      hide Parts, HopsOf;
      assert Parts(Render(hops)) == [p] + Parts(Render(rest));
      HopsOfMore(p, Parts(Render(rest)));
      assert hops == [hops[0]] + rest;
    }
  }

  /** Nothing that is rendered starts like the prefix, in which an empty part follows "hn:". */
  lemma NoPrefix(hops: seq<Hop>)
    requires forall h <- hops :: Clean(h)
    ensures Strip(Render(hops)) == Render(hops)
  {
    if hops != [] {
      var s, p := Render(hops), PartOf(hops[0]);
      PartReadBack(hops[0]);
      StartsWithPart(hops[1..]);
      assert forall j :: 0 <= j < |p| ==> s[j] == p[j];
      if |p| < |s| {
        assert s[|p|] == '/';
        assert |p| + 1 < |s| ==> s[|p| + 1] == Render(hops[1..])[0];
      }
      assert PREFIX[3] == '/' && PREFIX[4] == '/' && PREFIX[1] == 'n' && PREFIX[2] == ':';
    }
  }

  lemma StartsWithPart(hops: seq<Hop>)
    requires forall h <- hops :: Clean(h)
    ensures Render(hops) != "" ==> Render(hops)[0] != '/'
    ensures hops != [] ==> Render(hops) != ""
  {
    if hops != [] {
      PartReadBack(hops[0]);
    }
  }

  /** `url` is `text` with spaces put in. */
  ghost predicate Spaced(url: string, text: string)
    decreases |url|
  {
    if url == [] then text == []
    else
      var front, last := url[..|url| - 1], url[|url| - 1];
      || (last == ' ' && Spaced(front, text))
      || (text != [] && last == text[|text| - 1] && Spaced(front, text[..|text| - 1]))
  }

  lemma {:induction false} SpacedIs(url: string, text: string)
    requires Spaced(url, text) && ' ' !in text
    ensures NoSpaces(url) == text
    decreases |url|
  {
    if url != [] {
      var front := url[..|url| - 1];
      if url[|url| - 1] == ' ' {
        assert Spaced(front, text);
        SpacedIs(front, text);
      } else {
        SpacedIs(front, text[..|text| - 1]);
        assert text == text[..|text| - 1] + [text[|text| - 1]];
      }
    }
  }

  lemma {:induction false} NoSpaceRendered(hops: seq<Hop>)
    requires forall h <- hops :: Clean(h)
    ensures ' ' !in Render(hops)
    decreases |hops|
  {
    hide PartOf, HopOf;
    if hops != [] {
      PartReadBack(hops[0]);
      NoSpaceRendered(hops[1..]);
    }
  }

  /** However spaces are strewn in, and with the prefix or without it, the hops are read as they
      were written. */
  lemma UrlReadBack(url: string, hops: seq<Hop>)
    requires forall h <- hops :: Clean(h)
    requires Spaced(url, Render(hops)) || Spaced(url, "hn://" + Render(hops))
    ensures Hops(url) == hops
  {
    NoSpaceRendered(hops);
    if Spaced(url, Render(hops)) {
      SpacedIs(url, Render(hops));
    } else {
      SpacedIs(url, "hn://" + Render(hops));
    }
    NoPrefix(hops);
    PartsReadBack(hops);
    assert ("hn://" + Render(hops))[5..] == Render(hops);
  }

  lemma {:induction false} SpacedSelf(text: string)
    ensures Spaced(text, text)
    decreases |text|
  {
    if text != [] {
      SpacedSelf(text[..|text| - 1]);
    }
  }

  /** A URL with passwords, and the two requests that are sent along it. */
  lemma WorkedUrl()
    ensures Hops("hn://a#p/b/c#q") == [Hop("a", "p"), Hop("b", ""), Hop("c", "q")]
    ensures Requests(Hops("hn://a#p/b/c#q")) == [Request("b", "p"), Request("c", "")]
  {
    hide Hops, Spaced, Clean;
    var hops := [Hop("a", "p"), Hop("b", ""), Hop("c", "q")];
    WorkedRender(hops);
    SpacedSelf("hn://a#p/b/c#q");
    UrlReadBack("hn://a#p/b/c#q", hops);
  }

  lemma WorkedRender(hops: seq<Hop>)
    requires hops == [Hop("a", "p"), Hop("b", ""), Hop("c", "q")]
    ensures "hn://" + Render(hops) == "hn://a#p/b/c#q" && forall h <- hops :: Clean(h)
  {
    var rest := hops[1..];
    assert rest[0] == Hop("b", "") && rest[1..] == [Hop("c", "q")];
    assert Render(rest[1..]) == "c#q";
    assert Render(rest) == "b/c#q";
    assert Render(hops) == "a#p/b/c#q";
  }

  /* ---- The program ---- */

  /** str_removeSpaces: the text moves down over its spaces, in place. */
  method RemoveSpaces(str: array<char>, length: nat) returns (n: nat)
    requires length < str.Length && str[length] == '\0'
    modifies str
    ensures n <= length && str[..n] == NoSpaces(old(str[..length])) && str[n] == '\0'
  {
    var i, shift := 0, 0;
    ghost var was := str[..length];
    while i < length
      invariant 0 <= shift <= i <= length
      invariant str[..i - shift] == NoSpaces(was[..i])
      invariant str[i..length] == was[i..]
    {
      var c := str[i];
      assert c == str[i..length][0] == was[i];
      assert was[..i + 1][..i] == was[..i];
      ghost var tail := str[i..length];
      str[i - shift] := c;
      assert str[i + 1..length] == tail[1..] == was[i + 1..];
      if c == ' ' {
        shift := shift + 1;
      }
      i := i + 1;
    }
    assert was[..i] == was;
    str[i - shift] := '\0';
    n := i - shift;
  }

  /** How initializeConnect starts: a copy of the URL loses its spaces in place, and then its prefix. */
  method OpenUrl(constUrl: string) returns (start: string)
    ensures start == Strip(NoSpaces(constUrl))
  {
    var url := new char[|constUrl| + 10](_ => '\0');
    forall i | 0 <= i < |constUrl| {
      url[i] := constUrl[i];
    }
    assert url[..|constUrl|] == constUrl;
    var n := RemoveSpaces(url, |constUrl|);
    start := Strip(url[..n]);
  }

  /** strtok_r: skips slashes and cuts the next part off, if there is one. */
  method NextPart(s: string) returns (part: Option<string>, rest: string)
    ensures part.None? ==> Parts(s) == [] && rest == []
    ensures part.Some? ==> Parts(s) == [part.value] + Parts(rest) && |rest| < |s|
  {
    rest := s;
    while rest != [] && rest[0] == '/'
      invariant Parts(s) == Parts(rest) && |rest| <= |s|
      decreases |rest|
    {
      rest := rest[1..];
    }
    if rest == [] {
      return None, rest;
    }
    var n := Find(rest, '/');
    part, rest := Some(rest[..n]), rest[n..];
  }

  /** The number of requests that are sent: up to the first that is not answered CONNECTED. */
  function Answered(replies: seq<bool>, n: nat): (k: nat)
    requires n <= |replies|
    ensures k <= n && (forall i :: 0 <= i < k ==> replies[i]) && (k < n ==> !replies[k])
  {
    if n == 0 then 0
    else if Answered(replies, n - 1) < n - 1 then Answered(replies, n - 1)
    else if replies[n - 1] then n else n - 1
  }

  lemma {:induction false} AnsweredIs(replies: seq<bool>, n: nat, k: nat)
    requires k <= n <= |replies| && (forall i :: 0 <= i < k ==> replies[i]) && (k < n ==> !replies[k])
    ensures Answered(replies, n) == k
  {
  }

  /** One more part is one more hop. */
  lemma NextHop(s: string, part: string, rest: string)
    requires Parts(s) == [part] + Parts(rest)
    ensures HopsOf(Parts(s)) == [HopOf(part)] + HopsOf(Parts(rest))
  {
  }

  lemma NextRequest(hops: seq<Hop>, i: nat)
    requires i + 1 < |hops|
    ensures Requests(hops)[..i + 1] == Requests(hops)[..i] + [Request(hops[i + 1].id, hops[i].password)]
  {
  }

  /** initializeConnect without listeners. `reached` and `replies` are what the network will do: the
      first hop can be connected to, and the i-th request is answered CONNECTED. */
  method InitializeConnect(url: string, reached: bool, replies: seq<bool>)
      returns (ok: bool, dialed: Option<string>, sent: seq<Request>)
    requires |Hops(url)| <= |replies|
    ensures var hops := Hops(url);
            if hops == [] then !ok && dialed == None && sent == []
            else
              && dialed == Some(hops[0].id)
              && if !reached then !ok && sent == []
                 else
                   var n := |hops| - 1;
                   var k := Answered(replies, n);
                   && (ok <==> k == n)
                   && sent == Requests(hops)[..if ok then n else k + 1]
  {
    hide Parts, Find, HopOf, HopsOf, NoSpaces, Strip, Requests;
    ghost var hops := Hops(url);
    sent, dialed := [], None;
    var start := OpenUrl(url);
    var first, rest := NextPart(start);
    if first.None? {
      return false, dialed, sent;
    }
    NextHop(start, first.value, rest);
    var hop := HopOf(first.value);
    var passwordNext := hop.password;
    dialed := Some(hop.id);
    if !reached {
      return false, dialed, sent;
    }
    var i := 0;
    while true
      invariant 0 <= i < |hops| && |sent| == i
      invariant hops[i + 1..] == HopsOf(Parts(rest))
      invariant passwordNext == hops[i].password
      invariant sent == Requests(hops)[..i]
      invariant forall j :: 0 <= j < i ==> replies[j]
      decreases |hops| - i
    {
      ghost var before := rest;
      first, rest := NextPart(rest);
      var password := passwordNext;
      if first.None? {
        break;
      }
      NextHop(before, first.value, rest);
      NextRequest(hops, i);
      hop := HopOf(first.value);
      assert hops[i + 1] == hops[i + 1..][0] && hops[i + 2..] == hops[i + 1..][1..];
      passwordNext := hop.password;
      sent := sent + [Request(hop.id, password)];
      if !replies[i] {
        AnsweredIs(replies, |hops| - 1, i);
        return false, dialed, sent;
      }
      i := i + 1;
    }
    AnsweredIs(replies, |hops| - 1, |hops| - 1);
    ok := true;
  }
}
