/** Parsing `key=value&...` into a case-insensitive map in which the first binding of a key wins. */
module Query {
  import opened Bits
  import opened Url

  /** What strcasecmp compares: the bytes before the first NUL, in lower case. */
  function Canon(k: seq<byte>): seq<byte> {
    if k == [] || k[0] == 0 then [] else [if 65 <= k[0] <= 90 then k[0] + 32 else k[0]] + Canon(k[1..])
  }

  /** strlen: the number of bytes before the first NUL. */
  function Length(k: seq<byte>): (n: nat)
    ensures n <= |k| && (n < |k| ==> k[n] == 0) && forall i :: 0 <= i < n ==> k[i] != 0
  {
    if k == [] || k[0] == 0 then 0 else 1 + Length(k[1..])
  }

  /** Equal, or the two cases of one letter. */
  predicate SameLetter(x: byte, y: byte) {
    || x == y
    || ('A' as int <= x <= 'Z' as int && y - x == 'a' as int - 'A' as int)
    || ('A' as int <= y <= 'Z' as int && x - y == 'a' as int - 'A' as int)
  }

  /** Which keys are the same: up to the first NUL, equal byte by byte but for the case of letters. */
  lemma SameKeyIff(a: seq<byte>, b: seq<byte>)
    ensures Canon(a) == Canon(b) <==>
            Length(a) == Length(b) && forall i :: 0 <= i < Length(a) ==> SameLetter(a[i], b[i])
  {
    CanonAt(a);
    CanonAt(b);
    if Canon(a) == Canon(b) {
      forall i | 0 <= i < Length(a)
        ensures SameLetter(a[i], b[i])
      {
        assert Canon(a)[i] == Canon(b)[i];
      }
    }
  }

  lemma {:induction false} CanonAt(k: seq<byte>)
    ensures |Canon(k)| == Length(k)
    ensures forall i :: 0 <= i < Length(k) ==> Canon(k)[i] == if 65 <= k[i] <= 90 then k[i] + 32 else k[i]
  {
    if k != [] && k[0] != 0 {
      CanonAt(k[1..]);
    }
  }

  datatype Binding = Binding(key: seq<byte>, value: seq<byte>)

  /** The map with its keys folded; each binding keeps the spelling it was inserted with. */
  type Params = map<seq<byte>, Binding>

  /** map::insert: an existing binding stays. */
  function Insert(m: Params, b: Binding): Params {
    if Canon(b.key) in m then m else m[Canon(b.key) := b]
  }

  /** A key and a value still encoded. */
  datatype Raw = Raw(key: seq<byte>, code: seq<byte>)

  /**
    How the text is cut: up to the next '=' is a key, from there to the next '&' or the end its value, and so on
    behind the '&', until no '=' is left.
   */
  predicate Cuts(s: seq<byte>, rs: seq<Raw>)
    decreases |rs|
  {
    if rs == [] then EQUALS !in s
    else
      var k, n := |rs[0].key|, |rs[0].code|;
      && k + 1 + n <= |s|
      && s[..k] == rs[0].key && EQUALS !in rs[0].key && s[k] == EQUALS
      && s[k + 1..k + 1 + n] == rs[0].code && AMPERSAND !in rs[0].code
      && if k + 1 + n == |s| then |rs| == 1
         else s[k + 1 + n] == AMPERSAND && Cuts(s[k + 2 + n..], rs[1..])
  }

  /** There is only one way to cut a text. */
  lemma {:induction false} CutsUnique(s: seq<byte>, rs: seq<Raw>, rs': seq<Raw>)
    requires Cuts(s, rs) && Cuts(s, rs')
    ensures rs == rs'
    decreases |rs|
  {
    HasEquals(s, rs);
    HasEquals(s, rs');
    if rs != [] {
      SameHead(s, rs, rs');
      if |rs| > 1 {
        CutsUnique(s[|rs[0].key| + 2 + |rs[0].code|..], rs[1..], rs'[1..]);
      }
      assert rs == [rs[0]] + rs[1..] && rs' == [rs'[0]] + rs'[1..];
    }
  }

  lemma HasEquals(s: seq<byte>, rs: seq<Raw>)
    requires Cuts(s, rs)
    ensures rs == [] <==> EQUALS !in s
  {
    if rs != [] {
      assert s[|rs[0].key|] == EQUALS;
    }
  }

  /** The places at which a byte comes first in s. */
  lemma FirstPlace(s: seq<byte>, from: nat, k: nat, c: byte)
    requires from <= k <= |s| && c !in s[from..k]
    ensures forall j :: from <= j < k ==> s[j] != c
  {
    forall j | from <= j < k
      ensures s[j] != c
    {
      assert s[from..k][j - from] == s[j];
    }
  }

  lemma SameHead(s: seq<byte>, rs: seq<Raw>, rs': seq<Raw>)
    requires Cuts(s, rs) && Cuts(s, rs') && rs != [] && rs' != []
    ensures rs[0] == rs'[0]
  {
    CutHead(s, rs);
    CutHead(s, rs');
    SamePair(s, rs[0], rs'[0]);
  }

  /** The text begins with this pair. */
  predicate Begins(s: seq<byte>, r: Raw) {
    var p := |r.key| + 1;
    var q := p + |r.code|;
    && q <= |s| && s[..p - 1] == r.key && EQUALS !in r.key && s[p - 1] == EQUALS
    && s[p..q] == r.code && AMPERSAND !in r.code && (q < |s| ==> s[q] == AMPERSAND)
  }

  lemma CutHead(s: seq<byte>, rs: seq<Raw>)
    requires Cuts(s, rs) && rs != []
    ensures Begins(s, rs[0])
  {
  }

  /** A key ends at the first '=', a value at the next '&' or the end of the text. */
  lemma SamePair(s: seq<byte>, r: Raw, r': Raw)
    requires Begins(s, r) && Begins(s, r')
    ensures r == r'
  {
    FirstPlace(s, 0, |r.key|, EQUALS);
    FirstPlace(s, 0, |r'.key|, EQUALS);
    var p := |r.key| + 1;
    FirstPlace(s, p, p + |r.code|, AMPERSAND);
    FirstPlace(s, p, p + |r'.code|, AMPERSAND);
  }

  function InsertRaw(rs: seq<Raw>, m: Params): Params
    decreases |rs|
  {
    if rs == [] then m
    else
      var last := rs[|rs| - 1];
      Insert(InsertRaw(rs[..|rs| - 1], m), Binding(last.key, Decode(last.code, true)))
  }

  /** What has been cut off so far extends any cutting of the rest to one of the whole. */
  ghost predicate Extends(s: seq<byte>, pos: nat, got: seq<Raw>)
    requires pos <= |s|
  {
    forall rs {:trigger got + rs} :: Cuts(s[pos..], rs) ==> Cuts(s, got + rs)
  }

  lemma CutMore(s: seq<byte>, pos: nat, key: nat, amp: nat, got: seq<Raw>)
    requires pos <= key < amp < |s| && Extends(s, pos, got)
    requires EQUALS !in s[pos..key] && s[key] == EQUALS && AMPERSAND !in s[key + 1..amp] && s[amp] == AMPERSAND
    ensures Extends(s, amp + 1, got + [Raw(s[pos..key], s[key + 1..amp])])
  {
    var r := Raw(s[pos..key], s[key + 1..amp]);
    forall rs | Cuts(s[amp + 1..], rs)
      ensures Cuts(s, got + [r] + rs)
    {
      CutOneMore(s, pos, key, amp, got, rs);
    }
  }

  lemma CutOneMore(s: seq<byte>, pos: nat, key: nat, amp: nat, got: seq<Raw>, rs: seq<Raw>)
    requires pos <= key < amp < |s| && Extends(s, pos, got) && Cuts(s[amp + 1..], rs)
    requires EQUALS !in s[pos..key] && s[key] == EQUALS && AMPERSAND !in s[key + 1..amp] && s[amp] == AMPERSAND
    ensures Cuts(s, got + [Raw(s[pos..key], s[key + 1..amp])] + rs)
  {
    var r := Raw(s[pos..key], s[key + 1..amp]);
    SplitAt(s, pos, key, amp);
    CutFront(s[pos..], r, rs, s[amp + 1..]);
    assert got + ([r] + rs) == got + [r] + rs;
  }

  lemma SplitAt(s: seq<byte>, pos: nat, key: nat, amp: nat)
    requires pos <= key < amp < |s|
    ensures s[pos..] == s[pos..key] + [s[key]] + s[key + 1..amp] + [s[amp]] + s[amp + 1..]
  {
  }

  lemma CutFront(t: seq<byte>, r: Raw, rs: seq<Raw>, rest: seq<byte>)
    requires Cuts(rest, rs) && EQUALS !in r.key && AMPERSAND !in r.code
    requires t == r.key + [EQUALS] + r.code + [AMPERSAND] + rest
    ensures Cuts(t, [r] + rs)
  {
    var k, n := |r.key|, |r.code|;
    assert t[..k] == r.key && t[k + 1..k + 1 + n] == r.code && t[k + 2 + n..] == rest;
    assert ([r] + rs)[1..] == rs;
  }

  lemma CutLast(s: seq<byte>, pos: nat, key: nat, got: seq<Raw>)
    requires pos <= key < |s| && Extends(s, pos, got)
    requires EQUALS !in s[pos..key] && s[key] == EQUALS && AMPERSAND !in s[key + 1..|s|]
    ensures Cuts(s, got + [Raw(s[pos..key], s[key + 1..|s|])])
  {
    var r, t := Raw(s[pos..key], s[key + 1..|s|]), s[pos..];
    assert t[..key - pos] == r.key && t[key - pos + 1..|t|] == r.code;
    assert Cuts(t, [r]);
    assert Cuts(s, got + [r]);
  }

  lemma CutNothing(s: seq<byte>)
    ensures Extends(s, 0, [])
  {
    assert s[0..] == s;
    assert forall rs: seq<Raw> :: [] + rs == rs;
  }

  lemma CutDone(s: seq<byte>, pos: nat, got: seq<Raw>)
    requires pos <= |s| && Extends(s, pos, got) && EQUALS !in s[pos..]
    ensures Cuts(s, got)
  {
    assert Cuts(s[pos..], []) && got + [] == got;
  }

  type Builder = seq<Raw> -> Params

  /** `built` inserts decoded cuts into m. */
  ghost predicate Builds(built: Builder, m: Params) {
    forall rs {:trigger InsertRaw(rs, m)} :: built(rs) == InsertRaw(rs, m)
  }

  lemma BuildsSnoc(built: Builder, m: Params, rs: seq<Raw>, r: Raw)
    requires Builds(built, m)
    ensures built(rs + [r]) == Insert(built(rs), Binding(r.key, Decode(r.code, true)))
  {
    InsertRawSnoc(rs, r, m);
    assert built(rs) == InsertRaw(rs, m) && built(rs + [r]) == InsertRaw(rs + [r], m);
  }

  class HttpRequest {
    var query: seq<byte>
    var params: Params
    var parserParamFlag: bool    // bit 0x1

    constructor (q: seq<byte>)
      ensures query == q && params == map[] && !parserParamFlag
    {
      query, params, parserParamFlag := q, map[], false;
    }

    /** string::find; the length stands for npos. */
    method Find(c: byte, pos: nat) returns (i: nat)
      requires pos <= |query|
      ensures pos <= i <= |query| && c !in query[pos..i] && (i < |query| ==> query[i] == c)
    {
      i := pos;
      while i < |query| && query[i] != c
        invariant pos <= i <= |query| && c !in query[pos..i]
      {
        i := i + 1;
      }
    }

    /** Inserts the pair cut out between these places. */
    method InsertCut(last: nat, key: nat, amp: nat, ghost rs: seq<Raw>, ghost m: Params, ghost built: Builder)
      returns (ghost r: Raw)
      requires last <= key < amp <= |query| && Builds(built, m) && params == built(rs)
      modifies this`params
      ensures r == Raw(query[last..key], query[key + 1..amp]) && params == built(rs + [r])
    {
      var value := UrlDecode(query[key + 1..amp], true);
      r := Raw(query[last..key], query[key + 1..amp]);
      BuildsSnoc(built, m, rs, r);
      params := Insert(params, Binding(query[last..key], value));
    }

    /** initQueryParam: parses once; a second call changes nothing. */
    method InitQueryParam() returns (ghost rs: seq<Raw>)
      modifies this`params, this`parserParamFlag
      ensures parserParamFlag
      ensures old(parserParamFlag) ==> params == old(params)
      ensures !old(parserParamFlag) ==> Cuts(query, rs) && params == InsertRaw(rs, old(params))
    {
      rs := [];
      if parserParamFlag {
        return;
      }
      ghost var m := params;
      rs := ParseAll(m, (cuts: seq<Raw>) => InsertRaw(cuts, m));
      parserParamFlag := true;
    }

    method ParseAll(ghost m: Params, ghost built: Builder) returns (ghost rs: seq<Raw>)
      requires Builds(built, m) && params == built([])
      modifies this`params
      ensures Cuts(query, rs) && params == built(rs)
    {
      rs := [];
      var pos: nat := 0;
      var more := true;
      CutNothing(query);
      while more
        invariant pos <= |query| && Extends(query, pos, rs) && (more || EQUALS !in query[pos..])
        invariant params == built(rs)
        decreases more, |query| - pos
      {
        pos, more, rs := ParseOne(pos, rs, m, built);
      }
      CutDone(query, pos, rs);
    }

    /** The next '=' and the '&' behind it, or the end of the text. */
    method NextCut(pos: nat) returns (key: nat, amp: nat)
      requires pos <= |query|
      ensures pos <= key <= |query| && EQUALS !in query[pos..key]
      ensures key < |query| ==> query[key] == EQUALS && key < amp <= |query| && AMPERSAND !in query[key + 1..amp]
      ensures key < amp < |query| ==> query[amp] == AMPERSAND
    {
      key := Find(EQUALS, pos);
      amp := Find(AMPERSAND, key);
      if key < |query| {
        ValuePart(query, key, amp);
      }
    }

    /** One round of the loop; `more` is false where it breaks. */
    method ParseOne(pos: nat, ghost rs: seq<Raw>, ghost m: Params, ghost built: Builder)
      returns (pos': nat, more: bool, ghost rs': seq<Raw>)
      requires pos <= |query| && Extends(query, pos, rs) && Builds(built, m) && params == built(rs)
      modifies this`params
      ensures params == built(rs')
      ensures pos <= pos' <= |query| && Extends(query, pos', rs')
      ensures if more then pos < pos' else EQUALS !in query[pos'..]
    {
      pos', more, rs' := pos, false, rs;
      var key, amp := NextCut(pos);
      if key == |query| {
        assert query[pos..key] == query[pos..];
        return;
      }
      CutAt(query, pos, key, amp, rs);
      ghost var r := InsertCut(pos, key, amp, rs, m, built);
      rs' := rs + [r];
      if amp < |query| {
        pos', more := amp + 1, true;
      } else {
        pos' := amp;
      }
    }
  }

  /** What a cut at these places leaves: nothing more, or the text behind the '&'. */
  lemma CutAt(s: seq<byte>, pos: nat, key: nat, amp: nat, got: seq<Raw>)
    requires pos <= key < amp <= |s| && Extends(s, pos, got) && (amp < |s| ==> s[amp] == AMPERSAND)
    requires EQUALS !in s[pos..key] && s[key] == EQUALS && AMPERSAND !in s[key + 1..amp]
    ensures amp < |s| ==> Extends(s, amp + 1, got + [Raw(s[pos..key], s[key + 1..amp])])
    ensures amp == |s| ==> Extends(s, |s|, got + [Raw(s[pos..key], s[key + 1..amp])])
  {
    if amp < |s| {
      CutMore(s, pos, key, amp, got);
    } else {
      CutLast(s, pos, key, got);
      NothingLeft(s, got + [Raw(s[pos..key], s[key + 1..amp])]);
    }
  }

  lemma NothingLeft(s: seq<byte>, rs: seq<Raw>)
    requires Cuts(s, rs)
    ensures Extends(s, |s|, rs)
  {
    forall more | Cuts(s[|s|..], more)
      ensures Cuts(s, rs + more)
    {
      assert more == [];
      assert rs + more == rs;
    }
  }

  lemma ValuePart(q: seq<byte>, key: nat, amp: nat)
    requires key < |q| && q[key] == EQUALS && key <= amp <= |q| && AMPERSAND !in q[key..amp]
    requires amp < |q| ==> q[amp] == AMPERSAND
    ensures key < amp && AMPERSAND !in q[key + 1..amp]
  {
    FirstPlace(q, key, amp, AMPERSAND);
  }

  lemma InsertRawSnoc(rs: seq<Raw>, r: Raw, m: Params)
    ensures InsertRaw(rs + [r], m) == Insert(InsertRaw(rs, m), Binding(r.key, Decode(r.code, true)))
  {
    assert (rs + [r])[..|rs|] == rs;
  }

  // ----- round trip

  /** `key=UrlEncode(value)` */
  function Segment(b: Binding, plus: bool): seq<byte> {
    b.key + [EQUALS] + Encode(b.value, plus)
  }

  function Join(bs: seq<Binding>, plus: bool): seq<byte> {
    if bs == [] then []
    else if |bs| == 1 then Segment(bs[0], plus)
    else Segment(bs[0], plus) + [AMPERSAND] + Join(bs[1..], plus)
  }

  function InsertAll(bs: seq<Binding>, m: Params): Params
    decreases |bs|
  {
    if bs == [] then m else Insert(InsertAll(bs[..|bs| - 1], m), bs[|bs| - 1])
  }

  function Raws(bs: seq<Binding>, plus: bool): seq<Raw> {
    if bs == [] then [] else [Raw(bs[0].key, Encode(bs[0].value, plus))] + Raws(bs[1..], plus)
  }

  lemma {:induction false} RawsAt(bs: seq<Binding>, plus: bool, i: nat)
    requires i < |bs|
    ensures |Raws(bs, plus)| == |bs| && Raws(bs, plus)[i] == Raw(bs[i].key, Encode(bs[i].value, plus))
  {
    if i > 0 {
      RawsAt(bs[1..], plus, i - 1);
    } else if |bs| > 1 {
      RawsAt(bs[1..], plus, 0);
    }
  }

  /** The joined pairs are cut back into keys and encoded values. */
  lemma {:induction false} JoinCut(bs: seq<Binding>, plus: bool)
    requires forall i :: 0 <= i < |bs| ==> EQUALS !in bs[i].key
    ensures Cuts(Join(bs, plus), Raws(bs, plus))
    decreases |bs|
  {
    if bs != [] {
      var r := Raw(bs[0].key, Encode(bs[0].value, plus));
      NoAmpersand(bs[0].value, plus);
      if |bs| == 1 {
        var t := r.key + [EQUALS] + r.code;
        assert t[..|r.key|] == r.key && t[|r.key| + 1..|t|] == r.code;
        assert Raws(bs, plus) == [r];
      } else {
        JoinCut(bs[1..], plus);
        CutFront(Join(bs, plus), r, Raws(bs[1..], plus), Join(bs[1..], plus));
      }
    }
  }

  /** The pair a cut stands for. */
  function Pair(r: Raw): Binding {
    Binding(r.key, Decode(r.code, true))
  }

  lemma PairOf(b: Binding, plus: bool)
    ensures Pair(Raw(b.key, Encode(b.value, plus))) == b
  {
    DecodeEncode(b.value, plus, true);
  }

  lemma InsertRawAt(rs: seq<Raw>, m: Params, n: nat)
    requires 0 < n <= |rs|
    ensures InsertRaw(rs[..n], m) == Insert(InsertRaw(rs[..n - 1], m), Pair(rs[n - 1]))
  {
    assert rs[..n][..n - 1] == rs[..n - 1];
  }

  lemma InsertAllAt(bs: seq<Binding>, m: Params, n: nat)
    requires 0 < n <= |bs|
    ensures InsertAll(bs[..n], m) == Insert(InsertAll(bs[..n - 1], m), bs[n - 1])
  {
    assert bs[..n][..n - 1] == bs[..n - 1];
  }

  lemma {:induction false} RawsInsert(bs: seq<Binding>, rs: seq<Raw>, m: Params, n: nat)
    requires n <= |bs| == |rs| && forall i :: 0 <= i < |bs| ==> Pair(rs[i]) == bs[i]
    ensures InsertRaw(rs[..n], m) == InsertAll(bs[..n], m)
    decreases n
  {
    if n > 0 {
      RawsInsert(bs, rs, m, n - 1);
      InsertRawAt(rs, m, n);
      InsertAllAt(bs, m, n);
    }
  }

  /** However the joined pairs are cut, inserting the decoded cuts gives the map of the pairs themselves. */
  lemma JoinParses(bs: seq<Binding>, plus: bool, rs: seq<Raw>, m: Params)
    requires forall i :: 0 <= i < |bs| ==> EQUALS !in bs[i].key
    requires Cuts(Join(bs, plus), rs)
    ensures InsertRaw(rs, m) == InsertAll(bs, m)
  {
    JoinCut(bs, plus);
    CutsUnique(Join(bs, plus), rs, Raws(bs, plus));
    forall i | 0 <= i < |bs|
      ensures |rs| == |bs| && Pair(rs[i]) == bs[i]
    {
      RawsAt(bs, plus, i);
      PairOf(bs[i], plus);
    }
    assert bs == [] ==> rs == [];
    RawsInsert(bs, rs, m, |bs|);
    assert bs[..|bs|] == bs && rs[..|bs|] == rs;
  }

  /** Building a query from pairs and parsing it gives the first-wins, case-insensitive map of the pairs. */
  method QueryRoundTrip(bs: seq<Binding>, plus: bool) returns (m: Params)
    requires forall i :: 0 <= i < |bs| ==> EQUALS !in bs[i].key
    ensures m == InsertAll(bs, map[])
    ensures forall k :: (Canon(k) in m <==> FirstMatch(bs, k) < |bs|)
                        && (Canon(k) in m ==> m[Canon(k)] == bs[FirstMatch(bs, k)])
  {
    var req := new HttpRequest(Join(bs, plus));
    var rs := req.InitQueryParam();
    JoinParses(bs, plus, rs, map[]);
    m := req.params;
    forall k ensures (Canon(k) in m <==> FirstMatch(bs, k) < |bs|)
                     && (Canon(k) in m ==> m[Canon(k)] == bs[FirstMatch(bs, k)]) {
      FirstWins(bs, map[], k);
    }
  }

  /** What looking up a key finds in the map of the pairs: the first pair whose key compares equal. */
  lemma {:induction false} FirstWins(bs: seq<Binding>, m: Params, k: seq<byte>)
    ensures var i, r := FirstMatch(bs, k), InsertAll(bs, m);
            if Canon(k) in m then Canon(k) in r && r[Canon(k)] == m[Canon(k)]
            else if i < |bs| then Canon(k) in r && r[Canon(k)] == bs[i]
            else Canon(k) !in r
    decreases |bs|
  {
    if bs != [] {
      var front := bs[..|bs| - 1];
      FirstWins(front, m, k);
      FirstMatchFront(bs, k);
      InsertedLast(InsertAll(front, m), bs[|bs| - 1], Canon(k));
    }
  }

  /** What a lookup finds after one insertion. */
  lemma InsertedLast(r: Params, b: Binding, c: seq<byte>)
    ensures var r' := Insert(r, b);
            if c in r then c in r' && r'[c] == r[c]
            else if Canon(b.key) == c then c in r' && r'[c] == b
            else c !in r'
  {
  }

  lemma FirstMatchFront(bs: seq<Binding>, k: seq<byte>)
    requires bs != []
    ensures var i := FirstMatch(bs[..|bs| - 1], k);
            FirstMatch(bs, k) == if i < |bs| - 1 then i else if Canon(bs[i].key) == Canon(k) then i else i + 1
  {
    var front := bs[..|bs| - 1];
    var i, j := FirstMatch(front, k), FirstMatch(bs, k);
    assert forall x :: 0 <= x < |front| ==> front[x] == bs[x];
  }

  function FirstMatch(bs: seq<Binding>, k: seq<byte>): (i: nat)
    ensures i <= |bs|
    ensures i < |bs| ==> Canon(bs[i].key) == Canon(k)
    ensures forall j :: 0 <= j < i ==> Canon(bs[j].key) != Canon(k)
  {
    if bs == [] || Canon(bs[0].key) == Canon(k) then 0 else 1 + FirstMatch(bs[1..], k)
  }
}
