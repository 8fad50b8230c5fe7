/** The leaf payload and its hash, and what the payload determines. */
module LeafHash {
  import opened Basics
  import opened Texts

  const PIPE: byte := 0x7c
  const COMMA: byte := 0x2c

  function Join(parts: seq<Text>, separator: byte): Text {
    if parts == [] then []
    else if |parts| == 1 then parts[0]
    else parts[0] + [separator] + Join(parts[1..], separator)
  }

  /** The fields of a leaf; `json` is the canonical JSON text of the value. */
  datatype LeafFields = LeafFields(decision: Text, metric: Text, json: Text, timestamp: Text, refs: seq<Text>, key: Text)

  function Payload(f: LeafFields): Text {
    Join([f.decision, f.metric, f.json, f.timestamp, Join(SortedUnique(f.refs), COMMA), f.key], PIPE)
  }

  function ComputeLeafHash(h: Hash, f: LeafFields): Digest {
    h(Payload(f))
  }

  // ---- The hashed bytes ---------------------------------------------------------------

  /** The parts, one after the other, with a single comma (0x2c) between neighbours. */
  ghost predicate IsCommaList(text: Text, parts: seq<Text>)
    decreases |parts|
  {
    if |parts| <= 1 then text == if parts == [] then [] else parts[0]
    else exists rest: Text :: text == parts[0] + [0x2c] + rest && IsCommaList(rest, parts[1..])
  }

  lemma {:induction false} JoinedIsCommaList(parts: seq<Text>)
    ensures IsCommaList(Join(parts, COMMA), parts)
    decreases |parts|
  {
    if |parts| > 1 {
      JoinedIsCommaList(parts[1..]);
      assert Join(parts, COMMA) == parts[0] + [0x2c] + Join(parts[1..], COMMA);
    }
  }

  /** The bytes that are hashed: the five fields and, as the fifth part, the refs in strictly increasing
      order between commas, with a single pipe (0x7c) between neighbours. */
  lemma {:induction false} PayloadBytes(f: LeafFields) returns (refs: seq<Text>, joined: Text)
    ensures Increasing(refs) && (forall ref :: ref in refs <==> ref in f.refs) && IsCommaList(joined, refs)
    ensures Payload(f) == f.decision + [0x7c] + f.metric + [0x7c] + f.json + [0x7c] + f.timestamp + [0x7c] + joined + [0x7c] + f.key
  {
    hide SortedUnique, IsCommaList;
    refs := SortedUnique(f.refs);
    joined := Join(refs, COMMA);
    SortedUniqueIsSorted(f.refs);
    JoinedIsCommaList(refs);
    JoinedSix(f.decision, f.metric, f.json, f.timestamp, joined, f.key);
  }

  /** Two refs, given in either order or repeatedly. */
  lemma {:induction false} PayloadOfTwoRefs(f: LeafFields, a: Text, b: Text)
    requires Less(a, b) && a in f.refs && b in f.refs && forall ref :: ref in f.refs ==> ref == a || ref == b
    ensures Payload(f) == f.decision + [0x7c] + f.metric + [0x7c] + f.json + [0x7c] + f.timestamp + [0x7c] + a + [0x2c] + b + [0x7c] + f.key
  {
    SortedPair(a, b);
    SameElementsSameList(f.refs, [a, b]);
    assert [a, b][1..] == [b];
    assert Join([a, b], COMMA) == a + [0x2c] + b;
    var front := f.decision + [0x7c] + f.metric + [0x7c] + f.json + [0x7c] + f.timestamp + [0x7c];
    hide Join, SortedUnique;
    JoinedSix(f.decision, f.metric, f.json, f.timestamp, a + [0x2c] + b, f.key);
    assert front + (a + [0x2c] + b) + [0x7c] + f.key == front + a + [0x2c] + b + [0x7c] + f.key;
  }

  // ---- Reproducing it ------------------------------------------------------------------

  /** The hash is that of the stored event, whose refs are sorted with duplicates kept, and that
      of the rebuilt record, whose refs are sorted without duplicates. */
  lemma {:induction false} LeafHashIsReproducible(h: Hash, f: LeafFields)
    ensures ComputeLeafHash(h, f.(refs := Sorted(f.refs))) == ComputeLeafHash(h, f)
    ensures ComputeLeafHash(h, f.(refs := SortedUnique(f.refs))) == ComputeLeafHash(h, f)
    ensures ComputeLeafHash(h, f.(refs := SortedUnique(Sorted(f.refs)))) == ComputeLeafHash(h, f)
  {
    SortedUniqueAbsorbs(f.refs);
  }

  // ---- What the payload determines -------------------------------------------------

  lemma {:induction false} HoldsSeparator(a: Text, b: Text, x: Text, y: Text, separator: byte)
    requires a + [separator] + x == b + [separator] + y
    ensures |a| < |b| ==> separator in b
    ensures |x| < |y| ==> separator in y
  {
    var s, t := a + [separator] + x, b + [separator] + y;
    if |a| < |b| {
      assert s[|a|] == separator && t[|a|] == b[|a|];
    }
    if |x| < |y| {
      assert s[|a|] == separator && t[|a|] == y[|a| - |b| - 1];
    }
  }

  lemma {:induction false} CutAtFirst(a: Text, b: Text, x: Text, y: Text, separator: byte)
    requires a + [separator] + x == b + [separator] + y
    requires separator !in a && separator !in b
    ensures a == b && x == y
  {
    var s := a + [separator] + x;
    HoldsSeparator(a, b, x, y, separator);
    HoldsSeparator(b, a, y, x, separator);
    assert a == s[..|a|] == b;
    assert x == s[|a| + 1..] == y;
  }

  lemma {:induction false} CutAtLast(x: Text, y: Text, a: Text, b: Text, separator: byte)
    requires x + [separator] + a == y + [separator] + b
    requires separator !in a && separator !in b
    ensures a == b && x == y
  {
    var s := x + [separator] + a;
    HoldsSeparator(x, y, a, b, separator);
    HoldsSeparator(y, x, b, a, separator);
    assert x == s[..|x|] == y;
    assert a == s[|x| + 1..] == b;
  }

  lemma {:induction false} JoinedSix(a: Text, b: Text, c: Text, d: Text, e: Text, f: Text)
    ensures Join([a, b, c, d, e, f], PIPE)
            == a + [PIPE] + (b + [PIPE] + (c + [PIPE] + d + [PIPE] + e + [PIPE] + f))
            == (a + [PIPE] + b + [PIPE] + c + [PIPE] + d + [PIPE] + e) + [PIPE] + f
  {
    assert [a, b, c, d, e, f][1..] == [b, c, d, e, f];
    assert [b, c, d, e, f][1..] == [c, d, e, f];
    assert [c, d, e, f][1..] == [d, e, f];
    assert [d, e, f][1..] == [e, f];
    assert [e, f][1..] == [f];
    assert Join([e, f], PIPE) == e + [PIPE] + f;
    assert Join([d, e, f], PIPE) == d + [PIPE] + (e + [PIPE] + f);
    assert Join([c, d, e, f], PIPE) == c + [PIPE] + d + [PIPE] + e + [PIPE] + f;
    assert Join([b, c, d, e, f], PIPE) == b + [PIPE] + (c + [PIPE] + d + [PIPE] + e + [PIPE] + f);
  }

  predicate Contains(parts: seq<Text>, separator: byte) {
    exists i :: 0 <= i < |parts| && separator in parts[i]
  }

  lemma {:induction false} JoinSeparator(parts: seq<Text>, separator: byte)
    requires !Contains(parts, separator)
    ensures separator in Join(parts, separator) <==> |parts| > 1
    decreases |parts|
  {
    if |parts| > 1 {
      assert separator in parts[0] + [separator] + Join(parts[1..], separator);
    }
  }

  /** Non-empty lists of parts without the separator are determined by their join. */
  lemma {:induction false} JoinIsInjective(s: seq<Text>, t: seq<Text>, separator: byte)
    requires s != [] && t != [] && !Contains(s, separator) && !Contains(t, separator)
    requires Join(s, separator) == Join(t, separator)
    ensures s == t
    decreases |s|
  {
    JoinSeparator(s, separator);
    JoinSeparator(t, separator);
    if |s| > 1 {
      CutAtFirst(s[0], t[0], Join(s[1..], separator), Join(t[1..], separator), separator);
      JoinIsInjective(s[1..], t[1..], separator);
      assert s == [s[0]] + s[1..] && t == [t[0]] + t[1..];
    }
  }

  /** Distinct keys without '|' give distinct payloads, whatever the other fields hold. */
  lemma {:induction false} PayloadDeterminesKey(f: LeafFields, g: LeafFields)
    requires PIPE !in f.key && PIPE !in g.key
    requires Payload(f) == Payload(g)
    ensures f.key == g.key
  {
    var fr, gr := Join(SortedUnique(f.refs), COMMA), Join(SortedUnique(g.refs), COMMA);
    JoinedSix(f.decision, f.metric, f.json, f.timestamp, fr, f.key);
    JoinedSix(g.decision, g.metric, g.json, g.timestamp, gr, g.key);
    CutAtLast(f.decision + [PIPE] + f.metric + [PIPE] + f.json + [PIPE] + f.timestamp + [PIPE] + fr,
              g.decision + [PIPE] + g.metric + [PIPE] + g.json + [PIPE] + g.timestamp + [PIPE] + gr,
              f.key, g.key, PIPE);
  }

  /** No field but the JSON value has a '|', no ref has a ',', and there are refs. */
  ghost predicate Separable(f: LeafFields) {
    && PIPE !in f.decision && PIPE !in f.metric && PIPE !in f.timestamp && PIPE !in f.key
    && f.refs != [] && !Contains(f.refs, PIPE) && !Contains(f.refs, COMMA)
  }

  lemma {:induction false} JoinWithout(parts: seq<Text>, separator: byte, other: byte)
    requires other != separator && !Contains(parts, other)
    ensures other !in Join(parts, separator)
    decreases |parts|
  {
    if |parts| > 1 {
      JoinWithout(parts[1..], separator, other);
    } else if |parts| == 1 {
      assert other !in parts[0];
    }
  }

  lemma {:induction false} SortedRefsStaySeparable(refs: seq<Text>, c: byte)
    requires refs != []
    ensures SortedUnique(refs) != []
    ensures !Contains(refs, c) ==> !Contains(SortedUnique(refs), c)
  {
    SortedUniqueIsSorted(refs);
    assert refs[0] in SortedUnique(refs);
    if Contains(SortedUnique(refs), c) {
      var i :| 0 <= i < |SortedUnique(refs)| && c in SortedUnique(refs)[i];
      assert SortedUnique(refs)[i] in refs;
    }
  }

  /** The payload determines every field: the JSON value may contain '|'. */
  lemma {:induction false} PayloadDeterminesFields(f: LeafFields, g: LeafFields)
    requires Separable(f) && Separable(g) && Payload(f) == Payload(g)
    ensures f.(refs := SortedUnique(f.refs)) == g.(refs := SortedUnique(g.refs))
  {
    hide SortedUnique;
    var fu, gu := SortedUnique(f.refs), SortedUnique(g.refs);
    var fr, gr := Join(fu, COMMA), Join(gu, COMMA);
    SortedRefsStaySeparable(f.refs, PIPE);
    SortedRefsStaySeparable(g.refs, PIPE);
    SortedRefsStaySeparable(f.refs, COMMA);
    SortedRefsStaySeparable(g.refs, COMMA);
    JoinWithout(fu, COMMA, PIPE);
    JoinWithout(gu, COMMA, PIPE);
    JoinedSix(f.decision, f.metric, f.json, f.timestamp, fr, f.key);
    JoinedSix(g.decision, g.metric, g.json, g.timestamp, gr, g.key);
    CutSix(f.decision, f.metric, f.json, f.timestamp, fr, f.key, g.decision, g.metric, g.json, g.timestamp, gr, g.key);
    JoinIsInjective(fu, gu, COMMA);
  }

  lemma {:induction false} CutSix(a: Text, b: Text, c: Text, d: Text, e: Text, f: Text,
                                  a': Text, b': Text, c': Text, d': Text, e': Text, f': Text)
    requires a + [PIPE] + (b + [PIPE] + (c + [PIPE] + d + [PIPE] + e + [PIPE] + f))
             == a' + [PIPE] + (b' + [PIPE] + (c' + [PIPE] + d' + [PIPE] + e' + [PIPE] + f'))
    requires PIPE !in a && PIPE !in b && PIPE !in d && PIPE !in e && PIPE !in f
    requires PIPE !in a' && PIPE !in b' && PIPE !in d' && PIPE !in e' && PIPE !in f'
    ensures a == a' && b == b' && c == c' && d == d' && e == e' && f == f'
  {
    CutAtFirst(a, a', b + [PIPE] + (c + [PIPE] + d + [PIPE] + e + [PIPE] + f),
               b' + [PIPE] + (c' + [PIPE] + d' + [PIPE] + e' + [PIPE] + f'), PIPE);
    CutAtFirst(b, b', c + [PIPE] + d + [PIPE] + e + [PIPE] + f, c' + [PIPE] + d' + [PIPE] + e' + [PIPE] + f', PIPE);
    CutAtLast(c + [PIPE] + d + [PIPE] + e, c' + [PIPE] + d' + [PIPE] + e', f, f', PIPE);
    CutAtLast(c + [PIPE] + d, c' + [PIPE] + d', e, e', PIPE);
    CutAtLast(c, c', d, d', PIPE);
  }

  // ---- Why the separators must stay out of the fields ---------------------------------------

  /** A '|' can move between neighbouring fields: two claims about different decisions and metrics
      have one payload, whatever the other fields hold. */
  lemma {:induction false} PipeInFieldsIsAmbiguous(a: Text, b: Text, c: Text, f: LeafFields)
    ensures var g := f.(decision := a + [PIPE] + b, metric := c);
            var g' := f.(decision := a, metric := b + [PIPE] + c);
            g.decision != g'.decision && Payload(g) == Payload(g')
  {
    var refs := Join(SortedUnique(f.refs), COMMA);
    JoinedSix(a + [PIPE] + b, c, f.json, f.timestamp, refs, f.key);
    JoinedSix(a, b + [PIPE] + c, f.json, f.timestamp, refs, f.key);
    var rest := f.json + [PIPE] + f.timestamp + [PIPE] + refs + [PIPE] + f.key;
    assert (a + [PIPE] + b) + [PIPE] + (c + [PIPE] + rest) == a + [PIPE] + ((b + [PIPE] + c) + [PIPE] + rest);
  }

  /** A '|' can move between the refs and the key: two commits with different keys, so that both are
      logged, have one payload. */
  lemma {:induction false} PipeInKeyIsAmbiguous(ref: Text, x: Text, key: Text, f: LeafFields)
    ensures var g := f.(refs := [ref + [PIPE] + x], key := key);
            var g' := f.(refs := [ref], key := x + [PIPE] + key);
            g.key != g'.key && Payload(g) == Payload(g')
  {
    var front := f.decision + [PIPE] + f.metric + [PIPE] + f.json + [PIPE] + f.timestamp;
    SortedOne(ref + [PIPE] + x);
    SortedOne(ref);
    JoinedSix(f.decision, f.metric, f.json, f.timestamp, ref + [PIPE] + x, key);
    JoinedSix(f.decision, f.metric, f.json, f.timestamp, ref, x + [PIPE] + key);
    assert (front + [PIPE] + (ref + [PIPE] + x)) + [PIPE] + key == (front + [PIPE] + ref) + [PIPE] + (x + [PIPE] + key);
  }

  /** A ',' makes one ref look like two. */
  lemma {:induction false} CommaInRefsIsAmbiguous(a: Text, b: Text, f: LeafFields)
    requires Less(a, b)
    ensures var g := f.(refs := [a + [COMMA] + b]);
            var g' := f.(refs := [a, b]);
            SortedUnique(g.refs) != SortedUnique(g'.refs) && Payload(g) == Payload(g')
  {
    SortedOne(a + [COMMA] + b);
    SortedPair(a, b);
    assert [a, b][1..] == [b];
    assert Join([a, b], COMMA) == a + [COMMA] + b;
  }

  lemma {:induction false} SortedOne(a: Text)
    ensures SortedUnique([a]) == [a] && Join(SortedUnique([a]), COMMA) == a
  {
    assert [a][1..] == [];
  }

  lemma {:induction false} SortedPair(a: Text, b: Text)
    requires Less(a, b)
    ensures SortedUnique([a, b]) == [a, b]
  {
    SortedOne(b);
    LessIsTotal(a, b);
    assert [a, b][1..] == [b];
    assert SortedUnique([a, b]) == Insert(a, [b], true);
  }
}
