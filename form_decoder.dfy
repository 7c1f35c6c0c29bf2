/** The form-body decoder that the create and delete handlers run on the
    assembled body text: split on '&', split each piece on '=', keep the
    first segment as the name and the second as the value, and assign
    `fields[name] = value` into a plain JavaScript object. No
    percent-decoding happens and nothing can make it fail. */
module FormDecoder {

  import opened Wrappers
  import opened Text

  /** The decoded object: a missing second segment is `undefined`, None. */
  type Fields = map<string, Option<string>>

  /** Assigning to this property of a plain object runs the inherited
      prototype setter, which ignores a string or `undefined` value, so the
      object never gains an own property of this name. */
  const PROTO_KEY: string := "__proto__"

  /** The name of a piece: the first '='-segment of `piece.split('=')`,
      that is, the piece up to its first '=' or the whole piece. */
  function Name(piece: string): (name: string)
    ensures '=' !in name && Occurs(name, piece)
    ensures |name| <= |piece| && piece[..|name|] == name
    ensures |name| == |piece| || piece[|name|] == '='
  {
    var segs := Split(piece, '=');
    PartOccurs(segs, '=', 0);
    segs[0]
  }

  /** The value of a piece: the second '='-segment, or `undefined` when the
      piece has no '='. Any further segments are dropped. */
  function Value(piece: string): (value: Option<string>)
    ensures value.None? <==> '=' !in piece
    ensures value.Some? ==> '=' !in value.value && Occurs(value.value, piece)
    ensures value.Some? ==>
              var n, v := |Name(piece)|, value.value;
              && n + 1 + |v| <= |piece| && piece[n] == '='
              && piece[n + 1..][..|v|] == v
              && (n + 1 + |v| == |piece| || piece[n + 1 + |v|] == '=')
  {
    var segs := Split(piece, '=');
    if |segs| >= 2 then
      PartOccurs(segs, '=', 1);
      var a, b := SplitFirst(piece, '=').value.0, SplitFirst(piece, '=').value.1;
      assert segs == [a] + Split(b, '=');
      assert Name(piece) == a && segs[1] == Name(b);
      assert piece[|a| + 1..] == b;
      Some(segs[1])
    else None
  }

  /** `fields[name] = value` on a plain object: the property takes the
      value, except that the assignment to PROTO_KEY changes nothing. */
  function Assign(fields: Fields, name: string, value: Option<string>): (r: Fields)
    ensures name != PROTO_KEY ==> name in r && r[name] == value
    ensures name == PROTO_KEY ==> r == fields
  {
    if name == PROTO_KEY then fields else fields[name := value]
  }

  /** An assignment leaves every other property as it was. */
  lemma AssignLeavesOthers(fields: Fields, name: string, value: Option<string>, k: string)
    requires k != name
    ensures k in Assign(fields, name, value) <==> k in fields
    ensures k in fields ==> Assign(fields, name, value)[k] == fields[k]
  {
  }

  /** The (name, value) pair the loop reads from each piece, in order. */
  function Entries(pieces: seq<string>): (es: seq<(string, Option<string>)>)
    ensures |es| == |pieces|
    ensures forall i :: 0 <= i < |pieces| ==> es[i] == (Name(pieces[i]), Value(pieces[i]))
  {
    seq(|pieces|, i requires 0 <= i < |pieces| => (Name(pieces[i]), Value(pieces[i])))
  }

  /** The object after assigning `entries` in order to an empty object; it
      never holds PROTO_KEY as an own property. */
  function Collect(entries: seq<(string, Option<string>)>): (fields: Fields)
    ensures PROTO_KEY !in fields
    decreases |entries|
  {
    if entries == [] then map[]
    else
      var last := entries[|entries| - 1];
      Assign(Collect(entries[..|entries| - 1]), last.0, last.1)
  }

  /** The whole decoder as a function of the body text. */
  function Decode(body: string): (fields: Fields)
    ensures PROTO_KEY !in fields
  {
    Collect(Entries(Split(body, '&')))
  }

  /** One more assignment extends the object of the earlier ones. */
  lemma CollectStep(entries: seq<(string, Option<string>)>, i: nat)
    requires i < |entries|
    ensures Collect(entries[..i + 1]) == Assign(Collect(entries[..i]), entries[i].0, entries[i].1)
  {
    assert entries[..i + 1][..i] == entries[..i];
  }

  /** The decoding loop itself, as the handlers run it. */
  method DecodeBody(bodyStr: string) returns (fields: Fields)
    ensures fields == Decode(bodyStr)
  {
    fields := map[];
    var props := Split(bodyStr, '&');
    ghost var entries := Entries(props);
    var i := 0;
    while i < |props|
      invariant 0 <= i <= |props|
      invariant fields == Collect(entries[..i])
    {
      var segs := Split(props[i], '=');
      var name := segs[0];
      var value := if |segs| >= 2 then Some(segs[1]) else None;
      CollectStep(entries, i);
      assert entries[i] == (name, value);
      if name != PROTO_KEY {
        fields := fields[name := value];
      }
      i := i + 1;
    }
    assert entries[..|props|] == entries;
  }

  /** The names stored: every entry's name except PROTO_KEY. */
  lemma {:induction false} CollectKeys(entries: seq<(string, Option<string>)>, k: string)
    ensures k in Collect(entries) <==>
              k != PROTO_KEY && exists i :: 0 <= i < |entries| && entries[i].0 == k
    decreases |entries|
  {
    if entries != [] {
      var init := entries[..|entries| - 1];
      CollectKeys(init, k);
      if k in Collect(init) {
        var i :| 0 <= i < |init| && init[i].0 == k;
        assert entries[i] == init[i];
      }
      if exists i :: 0 <= i < |entries| && entries[i].0 == k {
        var i :| 0 <= i < |entries| && entries[i].0 == k;
        if i < |init| {
          assert init[i] == entries[i];
        }
      }
    }
  }

  /** A name that does not occur again later keeps the value of its own,
      last, occurrence: the last duplicate wins. */
  lemma {:induction false} CollectLastWins(entries: seq<(string, Option<string>)>, i: nat)
    requires i < |entries| && entries[i].0 != PROTO_KEY
    requires forall j :: i < j < |entries| ==> entries[j].0 != entries[i].0
    ensures entries[i].0 in Collect(entries)
    ensures Collect(entries)[entries[i].0] == entries[i].1
    decreases |entries|
  {
    var n := |entries|;
    if i < n - 1 {
      var init := entries[..n - 1];
      assert init[i] == entries[i];
      CollectLastWins(init, i);
    }
  }

  /** Each stored entry is the name and value of some entry. */
  lemma {:induction false} CollectEntryFrom(entries: seq<(string, Option<string>)>, k: string)
    requires k in Collect(entries)
    ensures exists i :: 0 <= i < |entries| && entries[i] == (k, Collect(entries)[k])
    decreases |entries|
  {
    var n := |entries|;
    var init := entries[..n - 1];
    if entries[n - 1].0 == k && k != PROTO_KEY {
      assert entries[n - 1] == (k, Collect(entries)[k]);
    } else {
      assert Collect(entries)[k] == Collect(init)[k];
      CollectEntryFrom(init, k);
      var i :| 0 <= i < |init| && init[i] == (k, Collect(init)[k]);
      assert entries[i] == init[i];
    }
  }

  /** Decoding yields exactly one key per distinct piece name other than
      PROTO_KEY, and each key holds the value of its last piece. */
  lemma DecodeLastWins(body: string, k: string)
    ensures var pieces := Split(body, '&');
            k in Decode(body) <==>
              k != PROTO_KEY && exists i :: 0 <= i < |pieces| && Name(pieces[i]) == k
    ensures var pieces := Split(body, '&');
            forall i :: 0 <= i < |pieces| && Name(pieces[i]) == k && k != PROTO_KEY &&
                        (forall j :: i < j < |pieces| ==> Name(pieces[j]) != k) ==>
              k in Decode(body) && Decode(body)[k] == Value(pieces[i])
  {
    var pieces := Split(body, '&');
    var es := Entries(pieces);
    CollectKeys(es, k);
    forall i | 0 <= i < |pieces| && Name(pieces[i]) == k && k != PROTO_KEY &&
               (forall j :: i < j < |pieces| ==> Name(pieces[j]) != k)
      ensures k in Decode(body) && Decode(body)[k] == Value(pieces[i])
    {
      CollectLastWins(es, i);
    }
  }

  /** Every stored name and every stored value is a substring of the body
      holding neither '&' nor '=': nothing is percent-decoded or rebuilt. */
  lemma DecodeEntriesAreSubstrings(body: string, k: string)
    requires k in Decode(body)
    ensures '&' !in k && '=' !in k && Occurs(k, body)
    ensures Decode(body)[k].Some? ==>
              var v := Decode(body)[k].value;
              '&' !in v && '=' !in v && Occurs(v, body)
  {
    var pieces := Split(body, '&');
    var es := Entries(pieces);
    CollectEntryFrom(es, k);
    var i :| 0 <= i < |es| && es[i] == (k, Collect(es)[k]);
    PartOccurs(pieces, '&', i);
    OccursTransitive(k, pieces[i], body);
    OccursChars(k, pieces[i], '&');
    if Collect(es)[k].Some? {
      var v := Collect(es)[k].value;
      OccursTransitive(v, pieces[i], body);
      OccursChars(v, pieces[i], '&');
    }
  }

  /** Of a piece `s0=s1=...` of '='-free segments, the name is the first
      segment and the value the second (absent when there is only one). */
  lemma PieceSegments(segs: seq<string>)
    requires |segs| >= 1
    requires forall i :: 0 <= i < |segs| ==> '=' !in segs[i]
    ensures Name(Join(segs, '=')) == segs[0]
    ensures Value(Join(segs, '=')) == if |segs| >= 2 then Some(segs[1]) else None
  {
    SplitJoin(segs, '=');
  }

  /** A body of two '&'-free pieces decodes as the two pieces assigned in
      order. */
  lemma DecodeTwoPieces(p: string, q: string)
    requires '&' !in p && '&' !in q
    ensures Decode(p + "&" + q) ==
              Assign(Assign(map[], Name(p), Value(p)), Name(q), Value(q))
  {
    var parts := [p, q];
    assert Join(parts, '&') == p + "&" + q;
    SplitJoin(parts, '&');
    var es := Entries(parts);
    assert es == [(Name(p), Value(p)), (Name(q), Value(q))];
    assert es[..1] == [(Name(p), Value(p))];
    assert es[..1][..0] == [];
    assert Collect(es[..1]) == Assign(map[], Name(p), Value(p));
  }

  /** `name=value` with '='-free parts has that name and value. */
  lemma PiecePair(name: string, value: string)
    requires '=' !in name && '=' !in value
    ensures Name(name + "=" + value) == name && Value(name + "=" + value) == Some(value)
  {
    assert Join([name, value], '=') == name + "=" + value;
    PieceSegments([name, value]);
  }

  /** `a=b=c` gives `a` the value `b`: a third segment is dropped. */
  lemma DecodeDropsThirdSegment(a: string, b: string, c: string)
    requires '&' !in a + b + c && '=' !in a + b + c && a != PROTO_KEY
    ensures Decode(a + "=" + b + "=" + c) == map[a := Some(b)]
  {
    var body := a + "=" + b + "=" + c;
    assert Join([body], '&') == body;
    SplitJoin([body], '&');
    assert '=' !in a && '=' !in b && '=' !in c;
    assert [a, b, c][1..] == [b, c] && [b, c][1..] == [c];
    assert Join([b, c], '=') == b + "=" + c;
    assert Join([a, b, c], '=') == body;
    PieceSegments([a, b, c]);
    var es := Entries([body]);
    assert es == [(a, Some(b))];
    assert es[..0] == [];
    assert Decode(body) == Collect(es) == Assign(map[], a, Some(b));
  }

  /** A body `n1=v1&n2=v2` of two distinct names stores both. */
  lemma DecodeTwoFields(n1: string, v1: string, n2: string, v2: string)
    requires '&' !in n1 + v1 + n2 + v2 && '=' !in n1 + v1 + n2 + v2
    requires n1 != n2 && n1 != PROTO_KEY && n2 != PROTO_KEY
    ensures Decode(n1 + "=" + v1 + "&" + n2 + "=" + v2) == map[n1 := Some(v1), n2 := Some(v2)]
  {
    assert '=' !in n1 && '=' !in v1 && '=' !in n2 && '=' !in v2;
    assert n1 + "=" + v1 + "&" + n2 + "=" + v2 == (n1 + "=" + v1) + "&" + (n2 + "=" + v2);
    DecodeTwoPieces(n1 + "=" + v1, n2 + "=" + v2);
    PiecePair(n1, v1);
    PiecePair(n2, v2);
  }

  /** A body `n=v1&n=v2` keeps the later value. */
  lemma DecodeDuplicateKeepsLast(n: string, v1: string, v2: string)
    requires '&' !in n + v1 + v2 && '=' !in n + v1 + v2 && n != PROTO_KEY
    ensures Decode(n + "=" + v1 + "&" + n + "=" + v2) == map[n := Some(v2)]
  {
    assert '=' !in n && '=' !in v1 && '=' !in v2;
    assert n + "=" + v1 + "&" + n + "=" + v2 == (n + "=" + v1) + "&" + (n + "=" + v2);
    DecodeTwoPieces(n + "=" + v1, n + "=" + v2);
    PiecePair(n, v1);
    PiecePair(n, v2);
  }

  /** A body that is a single piece without '=' stores that name with no
      value; the empty body is the case of the empty name. */
  lemma DecodeNameOnly(n: string)
    requires '&' !in n && '=' !in n && n != PROTO_KEY
    ensures Decode(n) == map[n := None]
  {
    assert Join([n], '&') == n;
    SplitJoin([n], '&');
    PieceSegments([n]);
    var es := Entries([n]);
    assert es == [(n, None)];
    assert es[..0] == [];
    assert Decode(n) == Collect(es) == Assign(map[], n, None);
  }

  /** A body `n=v` stores the one field. */
  lemma DecodeSingleField(n: string, v: string)
    requires '&' !in n + v && '=' !in n + v && n != PROTO_KEY
    ensures Decode(n + "=" + v) == map[n := Some(v)]
  {
    var body := n + "=" + v;
    assert '&' !in n && '=' !in n && '&' !in v && '=' !in v;
    assert '&' !in body;
    assert Join([body], '&') == body;
    SplitJoin([body], '&');
    PiecePair(n, v);
    var es := Entries([body]);
    assert es == [(n, Some(v))];
    assert es[..0] == [];
    assert Decode(body) == Collect(es) == Assign(map[], n, Some(v));
  }

  /** The empty body decodes to the single empty name with no value. */
  lemma DecodeEmptyBody()
    ensures Decode("") == map["" := None]
  {
  }

  /** An attempt to set the prototype key leaves the other entry alone. */
  lemma DecodeSkipsProtoKey(v: string, n: string, w: string)
    requires '&' !in v + n + w && '=' !in v + n + w && n != PROTO_KEY
    ensures Decode(PROTO_KEY + "=" + v + "&" + n + "=" + w) == map[n := Some(w)]
  {
    assert '=' !in v && '=' !in n && '=' !in w;
    assert '&' !in PROTO_KEY && '=' !in PROTO_KEY;
    assert PROTO_KEY + "=" + v + "&" + n + "=" + w == (PROTO_KEY + "=" + v) + "&" + (n + "=" + w);
    DecodeTwoPieces(PROTO_KEY + "=" + v, n + "=" + w);
    PiecePair(PROTO_KEY, v);
    PiecePair(n, w);
  }
}
