/**
 * The Telegram Mini App init-data check that guards `POST /api/users`
 * (`validate_telegram_init_data`): the init data is a `&`-separated list of
 * `key=value` segments; every pair except `hash` is sorted and joined with
 * newlines into the data-check string, whose HMAC-SHA-256 must equal the
 * received `hash`.
 *
 * The HMAC (RFC 2104 over SHA-256, keyed with the HMAC of the bot token
 * under "WebAppData", rendered as lower-case hex) is the parameter `sign`:
 * `sign(botToken, dataCheckString)` is the hex digest the server computes.
 * JSON decoding of the URL-decoded `user` field is the parameter `decodes`,
 * which says whether `json.loads(unquote(user))` succeeds.
 */
module InitData {
  import opened Records
  import opened Text

  datatype Pair = Pair(key: string, value: string)

  /** Python's order on the two-element lists `[key, value]`: by key, then
      by value. */
  predicate PairLe(p: Pair, q: Pair)
    ensures PairLe(p, q) ==> StrLe(p.key, q.key)
    ensures p.key == q.key ==> (PairLe(p, q) <==> StrLe(p.value, q.value))
  {
    (StrLe(p.key, q.key) && p.key != q.key) || (p.key == q.key && StrLe(p.value, q.value))
  }

  lemma PairLeTotal(p: Pair, q: Pair)
    ensures PairLe(p, q) || PairLe(q, p)
  {
    StrLeTotal(p.key, q.key);
    StrLeTotal(p.value, q.value);
  }

  lemma PairLeAntisymmetric(p: Pair, q: Pair)
    requires PairLe(p, q) && PairLe(q, p)
    ensures p == q
  {
    if p.key != q.key {
      StrLeAntisymmetric(p.key, q.key);
    } else {
      StrLeAntisymmetric(p.value, q.value);
    }
  }

  lemma PairLeTransitive(p: Pair, q: Pair, r: Pair)
    requires PairLe(p, q) && PairLe(q, r)
    ensures PairLe(p, r)
  {
    if p.key != q.key && q.key != r.key {
      StrLeTransitive(p.key, q.key, r.key);
      if p.key == r.key {
        StrLeAntisymmetric(p.key, q.key);
      }
    } else if p.key == q.key && q.key == r.key {
      StrLeTransitive(p.value, q.value, r.value);
    }
  }

  predicate Sorted(ps: seq<Pair>) {
    forall i, j :: 0 <= i < j < |ps| ==> PairLe(ps[i], ps[j])
  }

  /** `segment.split('=')`. */
  function Fields(segment: string): (f: seq<string>)
    ensures |f| >= 1
  {
    Split(segment, '=')
  }

  /** The segments `validate_telegram_init_data` leaves out of the
      data-check string: those whose text before the first `=` is `hash`. */
  predicate IsHashSegment(segment: string) {
    Fields(segment)[0] == "hash"
  }

  /** The pair a segment unpacks to in `for k, v in pairs`, or None when it
      does not hold exactly one `=` and the unpacking raises. */
  function AsPair(segment: string): (r: Option<Pair>)
    ensures r.Some? <==> |Fields(segment)| == 2
    ensures r.Some? ==> Fields(segment) == [r.value.key, r.value.value]
  {
    var f := Fields(segment);
    if |f| == 2 then Some(Pair(f[0], f[1])) else None
  }

  /** What one segment contributes to the data-check pairs: nothing for a
      `hash` segment, its pair otherwise, or None when it cannot be
      unpacked into a key and a value. */
  function Piece(segment: string): (r: Option<seq<Pair>>)
    ensures r.Some? <==> IsHashSegment(segment) || AsPair(segment).Some?
    ensures r.Some? ==> forall i :: 0 <= i < |r.value| ==> r.value[i].key != "hash"
  {
    if IsHashSegment(segment) then Some([])
    else match AsPair(segment)
      case Some(p) => Some([p])
      case None => None
  }

  function Combine(a: Option<seq<Pair>>, b: Option<seq<Pair>>): Option<seq<Pair>> {
    match (a, b)
    case (Some(x), Some(y)) => Some(x + y)
    case _ => None
  }

  /** The pairs of all segments except the `hash` ones, in segment order, or
      None when one of them cannot be unpacked into a key and a value. */
  function CheckPairs(segments: seq<string>): (r: Option<seq<Pair>>)
    ensures r.Some? ==> forall i :: 0 <= i < |r.value| ==> r.value[i].key != "hash"
  {
    if |segments| == 0 then Some([])
    else
      var r := Combine(Piece(segments[0]), CheckPairs(segments[1..]));
      assert r.Some? ==> forall i :: 0 <= i < |r.value| ==> r.value[i].key != "hash" by {
        if r.Some? {
          var x, y := Piece(segments[0]).value, CheckPairs(segments[1..]).value;
          assert forall i :: 0 <= i < |r.value| ==> r.value[i] == (x + y)[i];
        }
      }
      r
  }

  /** The pairs exist exactly when every segment is a `hash` segment or
      unpacks into a key and a value. */
  lemma {:induction false} CheckPairsDefined(segments: seq<string>)
    ensures CheckPairs(segments).Some? <==> forall k :: 0 <= k < |segments| ==>
              IsHashSegment(segments[k]) || AsPair(segments[k]).Some?
    decreases |segments|
  {
    if |segments| > 0 {
      CheckPairsDefined(segments[1..]);
      assert forall k :: 0 < k < |segments| ==> segments[k] == segments[1..][k - 1];
    }
  }

  /** How many segments contribute the pair `p` to the data-check string. */
  function SegmentsWith(segments: seq<string>, p: Pair): (n: nat)
    ensures n <= |segments|
    decreases |segments|
  {
    if |segments| == 0 then 0
    else (if !IsHashSegment(segments[0]) && AsPair(segments[0]) == Some(p) then 1 else 0)
         + SegmentsWith(segments[1..], p)
  }

  /** Every non-`hash` segment's pair is kept, as often as it occurs, and
      nothing else is. */
  lemma {:induction false} CheckPairsCount(segments: seq<string>, p: Pair)
    requires CheckPairs(segments).Some?
    ensures multiset(CheckPairs(segments).value)[p] == SegmentsWith(segments, p)
    decreases |segments|
  {
    if |segments| > 0 {
      var x, y := Piece(segments[0]).value, CheckPairs(segments[1..]).value;
      CheckPairsCount(segments[1..], p);
      assert multiset(x + y) == multiset(x) + multiset(y);
    }
  }

  /** The pair of a non-`hash` segment is among the data-check pairs. */
  lemma {:induction false} CheckPairsKeeps(segments: seq<string>, k: nat)
    requires CheckPairs(segments).Some?
    requires k < |segments| && !IsHashSegment(segments[k])
    ensures AsPair(segments[k]).Some? && AsPair(segments[k]).value in CheckPairs(segments).value
    decreases |segments|
  {
    var x, y := Piece(segments[0]).value, CheckPairs(segments[1..]).value;
    assert CheckPairs(segments).value == x + y;
    if k > 0 {
      assert segments[1..][k - 1] == segments[k];
      CheckPairsKeeps(segments[1..], k - 1);
    }
  }

  /** Every data-check pair comes from a non-`hash` segment. */
  lemma {:induction false} CheckPairsSource(segments: seq<string>, p: Pair)
    requires CheckPairs(segments).Some? && p in CheckPairs(segments).value
    ensures exists k :: 0 <= k < |segments| && !IsHashSegment(segments[k]) && AsPair(segments[k]) == Some(p)
    decreases |segments|
  {
    var x, y := Piece(segments[0]).value, CheckPairs(segments[1..]).value;
    assert CheckPairs(segments).value == x + y;
    if p in x {
      assert !IsHashSegment(segments[0]) && AsPair(segments[0]) == Some(p);
    } else {
      assert p in y;
      CheckPairsSource(segments[1..], p);
      var k :| 0 <= k < |segments[1..]| && !IsHashSegment(segments[1..][k])
               && AsPair(segments[1..][k]) == Some(p);
      assert segments[1..][k] == segments[k + 1];
    }
  }

  lemma CombineAssociative(a: Option<seq<Pair>>, b: Option<seq<Pair>>, c: Option<seq<Pair>>)
    ensures Combine(a, Combine(b, c)) == Combine(Combine(a, b), c)
  {
    if a.Some? && b.Some? && c.Some? {
      assert a.value + (b.value + c.value) == (a.value + b.value) + c.value;
    }
  }

  lemma {:induction false} CheckPairsAppend(a: seq<string>, b: seq<string>)
    ensures CheckPairs(a + b) == Combine(CheckPairs(a), CheckPairs(b))
    decreases |a|
  {
    if |a| > 0 {
      CheckPairsAppend(a[1..], b);
      assert (a + b)[1..] == a[1..] + b;
      assert (a + b)[0] == a[0];
      CombineAssociative(Piece(a[0]), CheckPairs(a[1..]), CheckPairs(b));
    } else {
      assert a + b == b;
      if CheckPairs(b).Some? {
        assert [] + CheckPairs(b).value == CheckPairs(b).value;
      }
    }
  }

  /** The data-check pairs do not depend on the order of the segments. */
  lemma {:induction false} CheckPairsPermutation(a: seq<string>, b: seq<string>)
    requires multiset(a) == multiset(b)
    ensures CheckPairs(a).Some? == CheckPairs(b).Some?
    ensures CheckPairs(a).Some? ==> multiset(CheckPairs(a).value) == multiset(CheckPairs(b).value)
    decreases |a|
  {
    if |a| == 0 {
      assert |b| == |multiset(b)| == 0;
    } else {
      var x := a[0];
      assert x in multiset(b);
      var k :| 0 <= k < |b| && b[k] == x;
      var left, right := b[..k], b[k + 1..];
      var b' := left + right;
      TakeOut(b, k);
      TakeOut(a, 0);
      assert a == [x] + a[1..];
      CheckPairsPermutation(a[1..], b');
      CheckPairsAppend([x], a[1..]);
      CheckPairsAppend(left, [x] + right);
      CheckPairsAppend([x], right);
      CheckPairsAppend(left, right);
      CombineMultiset(CheckPairs([x]), CheckPairs(a[1..]), CheckPairs(left), CheckPairs(right), CheckPairs(b'));
    }
  }

  /** A sequence around its `k`-th element, and what is left without it. */
  lemma TakeOut<T>(s: seq<T>, k: nat)
    requires k < |s|
    ensures s == s[..k] + ([s[k]] + s[k + 1..])
    ensures multiset(s[..k] + s[k + 1..]) == multiset(s) - multiset{s[k]}
  {
    assert s == s[..k] + [s[k]] + s[k + 1..];
  }

  /** The step of CheckPairsPermutation: x :: (l ++ r) and l ++ (x :: r)
      agree on success and on their pairs. */
  lemma CombineMultiset(cx: Option<seq<Pair>>, ca: Option<seq<Pair>>,
                        cl: Option<seq<Pair>>, cr: Option<seq<Pair>>, cb: Option<seq<Pair>>)
    requires cb == Combine(cl, cr)
    requires ca.Some? == cb.Some?
    requires ca.Some? ==> multiset(ca.value) == multiset(cb.value)
    ensures Combine(cx, ca).Some? == Combine(cl, Combine(cx, cr)).Some?
    ensures Combine(cx, ca).Some? ==>
              multiset(Combine(cx, ca).value) == multiset(Combine(cl, Combine(cx, cr)).value)
  {
    if cx.Some? && ca.Some? {
      assert multiset(cx.value + ca.value) == multiset(cx.value) + multiset(ca.value);
      assert multiset(cl.value + (cx.value + cr.value))
          == multiset(cl.value) + multiset(cx.value) + multiset(cr.value);
    }
  }

  function Insert(p: Pair, ps: seq<Pair>): (r: seq<Pair>)
    requires Sorted(ps)
    ensures Sorted(r)
    ensures multiset(r) == multiset(ps) + multiset{p}
    decreases |ps|
  {
    if |ps| == 0 || PairLe(p, ps[0]) then
      forall j | 0 < j < |ps| ensures PairLe(p, ps[j]) {
        PairLeTransitive(p, ps[0], ps[j]);
      }
      SortedCons(p, ps);
      [p] + ps
    else
      PairLeTotal(p, ps[0]);
      var tail := Insert(p, ps[1..]);
      assert ps == [ps[0]] + ps[1..];
      LowerBound(ps[0], p, ps[1..], tail);
      SortedCons(ps[0], tail);
      [ps[0]] + tail
  }

  /** A pair below every pair of a sorted sequence can go in front of it. */
  lemma SortedCons(x: Pair, t: seq<Pair>)
    requires Sorted(t)
    requires forall j :: 0 <= j < |t| ==> PairLe(x, t[j])
    ensures Sorted([x] + t)
  {
    forall i, j | 0 <= i < j < |t| + 1 ensures PairLe(([x] + t)[i], ([x] + t)[j]) {
      if i > 0 {
        assert ([x] + t)[i] == t[i - 1];
      }
      assert ([x] + t)[j] == t[j - 1];
    }
  }

  /** A bound below `p` and below every pair of `s` is below every pair of
      a rearrangement of `s` with `p` added. */
  lemma LowerBound(x: Pair, p: Pair, s: seq<Pair>, t: seq<Pair>)
    requires PairLe(x, p)
    requires forall j :: 0 <= j < |s| ==> PairLe(x, s[j])
    requires multiset(t) == multiset(s) + multiset{p}
    ensures forall j :: 0 <= j < |t| ==> PairLe(x, t[j])
  {
    forall j | 0 <= j < |t| ensures PairLe(x, t[j]) {
      assert t[j] in multiset(t);
      if t[j] != p {
        assert t[j] in multiset(s);
        var k :| 0 <= k < |s| && s[k] == t[j];
      }
    }
  }

  /** `sorted(...)` on the pairs. */
  function SortPairs(ps: seq<Pair>): (r: seq<Pair>)
    ensures Sorted(r) && multiset(r) == multiset(ps)
    decreases |ps|
  {
    if |ps| == 0 then []
    else
      assert ps == [ps[0]] + ps[1..];
      Insert(ps[0], SortPairs(ps[1..]))
  }

  /** Two sorted arrangements of the same pairs are the same sequence, so
      the order the pairs arrive in cannot change what `sorted` returns. */
  lemma {:induction false} SortedUnique(a: seq<Pair>, b: seq<Pair>)
    requires Sorted(a) && Sorted(b) && multiset(a) == multiset(b)
    ensures a == b
    decreases |a|
  {
    if |a| == 0 {
      assert |b| == |multiset(b)| == 0;
    } else {
      assert |b| == |multiset(b)| == |multiset(a)| == |a|;
      SortedHeads(a, b);
      RestMultiset(a);
      RestMultiset(b);
      SortedUnique(a[1..], b[1..]);
      assert a == [a[0]] + a[1..] && b == [b[0]] + b[1..];
    }
  }

  /** Two sorted arrangements of the same pairs start with the same pair. */
  lemma SortedHeads(a: seq<Pair>, b: seq<Pair>)
    requires Sorted(a) && Sorted(b) && multiset(a) == multiset(b)
    requires |a| > 0 && |b| > 0
    ensures a[0] == b[0]
  {
    assert a[0] in multiset(b) && b[0] in multiset(a);
    var j :| 0 <= j < |b| && b[j] == a[0];
    var i :| 0 <= i < |a| && a[i] == b[0];
    PairLeTotal(a[0], a[0]);
    PairLeTotal(b[0], b[0]);
    assert PairLe(b[0], b[j]);
    assert PairLe(a[0], a[i]);
    PairLeAntisymmetric(a[0], b[0]);
  }

  lemma RestMultiset(a: seq<Pair>)
    requires |a| > 0
    ensures multiset(a[1..]) == multiset(a) - multiset{a[0]}
  {
    assert a == [a[0]] + a[1..];
  }

  /** The line `f'{k}={v}'`. */
  function Line(p: Pair): string {
    p.key + "=" + p.value
  }

  function Lines(ps: seq<Pair>): (r: seq<string>)
    ensures |r| == |ps|
    ensures forall i :: 0 <= i < |ps| ==> r[i] == Line(ps[i])
  {
    seq(|ps|, i requires 0 <= i < |ps| => Line(ps[i]))
  }

  /** The pairs of the data-check string, in the order they are joined:
      every non-`hash` pair of the init data, sorted by key and then by value. */
  function SortedCheckPairs(initData: string): (r: Option<seq<Pair>>)
    ensures r.Some? <==> CheckPairs(Split(initData, '&')).Some?
    ensures r.Some? ==> Sorted(r.value)
    ensures r.Some? ==> multiset(r.value) == multiset(CheckPairs(Split(initData, '&')).value)
    ensures r.Some? ==> forall i :: 0 <= i < |r.value| ==> r.value[i].key != "hash"
  {
    match CheckPairs(Split(initData, '&'))
    case None => None
    case Some(ps) =>
      var sorted := SortPairs(ps);
      assert forall i :: 0 <= i < |sorted| ==> sorted[i] in multiset(ps);
      Some(sorted)
  }

  /** The data-check string, or None when building it raises. */
  function DataCheckString(initData: string): (r: Option<string>)
    ensures r.Some? <==> CheckPairs(Split(initData, '&')).Some?
    ensures r.Some? && CheckPairs(Split(initData, '&')).value == [] ==> r.value == ""
  {
    match SortedCheckPairs(initData)
    case None => None
    case Some(ps) => Some(Join(Lines(ps), '\n'))
  }

  /** Reordering the segments of the init data does not change its
      data-check string. */
  lemma DataCheckStringOrderIndependent(a: string, b: string)
    requires multiset(Split(a, '&')) == multiset(Split(b, '&'))
    ensures DataCheckString(a) == DataCheckString(b)
  {
    CheckPairsPermutation(Split(a, '&'), Split(b, '&'));
    if SortedCheckPairs(a).Some? {
      SortedUnique(SortedCheckPairs(a).value, SortedCheckPairs(b).value);
    }
  }

  /** The data-check string reads back into its sorted pairs when no key or
      value holds a newline: one line per pair, each line split once by `=`. */
  lemma DataCheckStringReadsBack(initData: string)
    requires SortedCheckPairs(initData).Some?
    requires |SortedCheckPairs(initData).value| > 0
    requires forall p <- SortedCheckPairs(initData).value :: '\n' !in p.key && '\n' !in p.value
    ensures var ps := SortedCheckPairs(initData).value;
      && Split(DataCheckString(initData).value, '\n') == Lines(ps)
      && forall i :: 0 <= i < |ps| ==> Split(Lines(ps)[i], '=') == [ps[i].key, ps[i].value]
  {
    var ps := SortedCheckPairs(initData).value;
    var lines := Lines(ps);
    forall i | 0 <= i < |ps|
      ensures '\n' !in lines[i] && Split(lines[i], '=') == [ps[i].key, ps[i].value]
    {
      PairFromSegment(Split(initData, '&'), ps[i]);
      LineReadsBack(ps[i]);
    }
    SplitJoin(lines, '\n');
  }

  /** A line whose key and value hold no `=` splits back into them, and
      holds no newline when they hold none. */
  lemma LineReadsBack(p: Pair)
    requires '=' !in p.key && '=' !in p.value
    requires '\n' !in p.key && '\n' !in p.value
    ensures '\n' !in Line(p)
    ensures Split(Line(p), '=') == [p.key, p.value]
  {
    SplitAfterPiece(p.key, '=', p.value);
    SplitPlain(p.value, '=');
  }

  /** Every data-check pair came out of `split('=')`, so neither half holds `=`. */
  lemma {:induction false} PairFromSegment(segments: seq<string>, p: Pair)
    requires CheckPairs(segments).Some?
    requires p in multiset(CheckPairs(segments).value)
    ensures '=' !in p.key && '=' !in p.value
    decreases |segments|
  {
    var rest := CheckPairs(segments[1..]);
    if !IsHashSegment(segments[0]) {
      var q := AsPair(segments[0]).value;
      assert CheckPairs(segments).value == [q] + rest.value;
      if p != q {
        PairFromSegment(segments[1..], p);
      }
    } else {
      PairFromSegment(segments[1..], p);
    }
  }

  /** `dict(s.split('=') for s in segments)`: every segment must hold exactly
      one `=`, and a later segment overrides an earlier one with its key. */
  function FieldMap(segments: seq<string>): (r: Option<map<string, string>>)
    ensures r.Some? <==> forall k :: 0 <= k < |segments| ==> AsPair(segments[k]).Some?
    ensures r.Some? ==> forall k :: 0 <= k < |segments| ==> Fields(segments[k])[0] in r.value
    ensures r.Some? && |segments| > 0 ==>
              var last := Fields(segments[|segments| - 1]);
              r.value[last[0]] == last[1]
    decreases |segments|
  {
    if |segments| == 0 then Some(map[])
    else
      var n := |segments| - 1;
      var init, last := FieldMap(segments[..n]), AsPair(segments[n]);
      assert forall k :: 0 <= k < n ==> segments[k] == segments[..n][k];
      if init.None? || last.None? then None
      else Some(init.value[last.value.key := last.value.value])
  }

  /** `dict` over all segments is `dict` over all but the last, updated
      with the last segment's pair. */
  lemma FieldMapLast(segments: seq<string>)
    requires FieldMap(segments).Some? && |segments| > 0
    ensures var n := |segments| - 1;
      && FieldMap(segments[..n]).Some?
      && |Fields(segments[n])| == 2
      && FieldMap(segments).value
         == FieldMap(segments[..n]).value[Fields(segments[n])[0] := Fields(segments[n])[1]]
  {
    var n := |segments| - 1;
    var init := segments[..n];
    assert AsPair(segments[n]).Some?;
    assert forall j :: 0 <= j < n ==> init[j] == segments[j];
    assert FieldMap(init).Some?;
  }

  /** A key takes the value of its last segment: the value of any segment
      no later segment shares a key with. */
  lemma {:induction false} FieldMapLastWins(segments: seq<string>, k: nat)
    requires FieldMap(segments).Some? && k < |segments|
    requires forall j :: k < j < |segments| ==> Fields(segments[j])[0] != Fields(segments[k])[0]
    ensures FieldMap(segments).value[Fields(segments[k])[0]] == Fields(segments[k])[1]
    decreases |segments|
  {
    var n := |segments| - 1;
    FieldMapLast(segments);
    if k < n {
      var init := segments[..n];
      assert forall j :: k <= j < n ==> init[j] == segments[j];
      FieldMapLastWins(init, k);
    }
  }

  /** Every entry of the map comes from a segment: the last one with its
      key, whose value it holds. */
  lemma {:induction false} FieldMapEntry(segments: seq<string>, key: string)
    requires FieldMap(segments).Some? && key in FieldMap(segments).value
    ensures exists k :: 0 <= k < |segments|
              && Fields(segments[k]) == [key, FieldMap(segments).value[key]]
              && forall j :: k < j < |segments| ==> Fields(segments[j])[0] != key
    decreases |segments|
  {
    var n := |segments| - 1;
    var m := FieldMap(segments).value;
    var last := Fields(segments[n]);
    FieldMapLast(segments);
    if last[0] == key {
      assert Fields(segments[n]) == [key, m[key]];
    } else {
      var init := segments[..n];
      FieldMapEntry(init, key);
      var k :| 0 <= k < |init| && Fields(init[k]) == [key, FieldMap(init).value[key]]
               && forall j :: k < j < |init| ==> Fields(init[j])[0] != key;
      LastOfKeyExtends(segments, init, key, k);
    }
  }

  /** The last segment with a key stays the last one when a segment with
      another key is added after it. */
  lemma LastOfKeyExtends(segments: seq<string>, init: seq<string>, key: string, k: nat)
    requires 0 < |segments| && init == segments[..|segments| - 1] && k < |init|
    requires Fields(segments[|segments| - 1])[0] != key
    requires forall j :: k < j < |init| ==> Fields(init[j])[0] != key
    ensures segments[k] == init[k]
    ensures forall j :: k < j < |segments| ==> Fields(segments[j])[0] != key
  {
    forall j | k < j < |segments| ensures Fields(segments[j])[0] != key {
      if j < |init| {
        assert init[j] == segments[j];
      }
    }
  }

  /** The body of the `try` block: the check of the hash, then of the
      `user` field, then its decoding. */
  function CheckInitData(initData: string, botToken: string, sign: (string, string) -> string,
                         decodes: string -> bool): (r: Result<string>)
    ensures r.Ok? ==> HashMatches(initData, botToken, sign) && HasUser(initData)
    ensures r.Ok? ==> r.value == UserField(initData) && decodes(r.value)
    ensures r.Err? && r.error == BadRequest <==> HashMatches(initData, botToken, sign) && !HasUser(initData)
    ensures r.Err? ==> r.error in {Malformed, Unauthorized, BadRequest}
  {
    match DataCheckString(initData)
    case None => Err(Malformed)
    case Some(dcs) =>
      match FieldMap(Split(initData, '&'))
      case None => Err(Malformed)
      case Some(fields) =>
        if "hash" !in fields || sign(botToken, dcs) != fields["hash"] then Err(Unauthorized)
        else if "user" !in fields || fields["user"] == "" then Err(BadRequest)
        else if !decodes(fields["user"]) then Err(Malformed)
        else Ok(fields["user"])
  }

  /** The init data is well formed and carries a `hash` equal to the HMAC of
      its data-check string. */
  predicate HashMatches(initData: string, botToken: string, sign: (string, string) -> string) {
    && DataCheckString(initData).Some?
    && FieldMap(Split(initData, '&')).Some?
    && "hash" in FieldMap(Split(initData, '&')).value
    && FieldMap(Split(initData, '&')).value["hash"] == sign(botToken, DataCheckString(initData).value)
  }

  /** The init data has a non-empty `user` field. */
  predicate HasUser(initData: string) {
    && FieldMap(Split(initData, '&')).Some?
    && "user" in FieldMap(Split(initData, '&')).value
    && FieldMap(Split(initData, '&')).value["user"] != ""
  }

  function UserField(initData: string): string
    requires HasUser(initData)
  {
    FieldMap(Split(initData, '&')).value["user"]
  }

  /** `validate_telegram_init_data`: 500 without a bot token; otherwise
      every failure of the `try` block, the 400 for a missing user included,
      leaves as 401. */
  function ValidateInitData(initData: string, botToken: string, sign: (string, string) -> string,
                            decodes: string -> bool): (r: Result<string>)
    ensures r.Err? ==> r.error == Unauthorized || r.error == ServerConfig
    ensures (r.Err? && r.error == ServerConfig) <==> botToken == ""
    ensures r.Ok? <==> botToken != "" && HashMatches(initData, botToken, sign)
                       && HasUser(initData) && decodes(UserField(initData))
    ensures r.Ok? ==> r.value == UserField(initData)
  {
    if botToken == "" then Err(ServerConfig)
    else match CheckInitData(initData, botToken, sign, decodes)
      case Ok(user) => Ok(user)
      case Err(_) => Err(Unauthorized)
  }

  /** A correctly signed init data without a `user` field is refused with
      401, not with the 400 raised inside the `try` block. */
  lemma MissingUserIsUnauthorized(initData: string, botToken: string,
                                  sign: (string, string) -> string, decodes: string -> bool)
    requires botToken != "" && HashMatches(initData, botToken, sign) && !HasUser(initData)
    ensures CheckInitData(initData, botToken, sign, decodes) == Err(BadRequest)
    ensures ValidateInitData(initData, botToken, sign, decodes) == Err(Unauthorized)
  {
  }
}
