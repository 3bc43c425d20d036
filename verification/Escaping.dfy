/** The escaping of the 808 protocol (src/pack/tprotocol.cpp; section 4.4.2 of
    JT/T 808-2011): between the two 0x7e marks 0x7e is sent as 7d 02 and 0x7d as 7d 01. */
module Escaping {
  import opened Bytes

  const MARK: byte := 0x7e
  const ESCAPE: byte := 0x7d

  function Escape(body: seq<byte>): seq<byte> {
    if body == [] then [] else EscapeByte(body[0]) + Escape(body[1..])
  }

  function EscapeByte(b: byte): (s: seq<byte>)
    ensures MARK !in s
  {
    if b == MARK then [ESCAPE, 2] else if b == ESCAPE then [ESCAPE, 1] else [b]
  }

  // What the loop of decode808 writes from index i on; the last byte is not its own.
  function Unescape(e: seq<byte>, i: nat): seq<byte>
    decreases |e| - i
  {
    if i + 1 >= |e| then []
    else if e[i] == ESCAPE && e[i + 1] == 2 then [MARK] + Unescape(e, i + 2)
    else if e[i] == ESCAPE && e[i + 1] == 1 then [ESCAPE] + Unescape(e, i + 2)
    else [e[i]] + Unescape(e, i + 1)
  }

  // The mark never shows up inside.
  lemma {:induction false} NoMarkInside(body: seq<byte>)
    ensures MARK !in Escape(body)
  {
    if body != [] {
      NoMarkInside(body[1..]);
    }
  }

  // Whatever stands in front and whatever single byte stands behind.
  lemma {:induction false} UnescapeInverts(front: seq<byte>, body: seq<byte>, last: byte)
    ensures Unescape(front + Escape(body) + [last], |front|) == body
    decreases |body|
  {
    hide Unescape, EscapeByte, Escape;
    EscapeUnfolds(body);
    if body == [] {
      NothingEscaped(front, last);
    } else {
      var code, inner := EscapeByte(body[0]), Escape(body[1..]);
      UnescapeInverts(front + code, body[1..], last);
      Assoc(front, code, inner);
      Assoc(front + code, inner, [last]);
      UnescapeByte(front, body[0], inner + [last]);
    }
  }

  lemma EscapeUnfolds(body: seq<byte>)
    ensures Escape(body) == if body == [] then [] else EscapeByte(body[0]) + Escape(body[1..])
  {
  }

  lemma NothingEscaped(front: seq<byte>, last: byte)
    ensures Unescape(front + [] + [last], |front|) == []
  {
  }

  lemma UnescapeByte(front: seq<byte>, b: byte, tail: seq<byte>)
    requires tail != []
    ensures var e := front + EscapeByte(b) + tail;
            Unescape(e, |front|) == [b] + Unescape(e, |front + EscapeByte(b)|)
  {
    var code := EscapeByte(b);
    var e := front + code + tail;
    assert e[|front|] == code[0];
    if |code| == 2 {
      assert e[|front| + 1] == code[1];
    }
  }

  // The two marked bytes become two each, every other byte stays, and byte follows byte.
  lemma EscapeMeans(a: seq<byte>, b: seq<byte>, c: byte)
    ensures Escape(a + b) == Escape(a) + Escape(b)
    ensures Escape([0x7e]) == [0x7d, 0x02] && Escape([0x7d]) == [0x7d, 0x01]
    ensures c != 0x7e && c != 0x7d ==> Escape([c]) == [c]
  {
    hide Escape;
    EscapeConcat(a, b);
    EscapeOne(0x7e);
    EscapeOne(0x7d);
    EscapeOne(c);
  }

  lemma EscapeOne(c: byte)
    ensures Escape([c]) == EscapeByte(c)
  {
    assert [c][1..] == [];
  }

  lemma {:induction false} EscapeConcat(a: seq<byte>, b: seq<byte>)
    ensures Escape(a + b) == Escape(a) + Escape(b)
  {
    hide Escape, EscapeByte;
    EscapeUnfolds(a);
    if a == [] {
      assert a + b == b;
    } else {
      EscapeConcat(a[1..], b);
      EscapeUnfolds(a + b);
      assert (a + b)[1..] == a[1..] + b;
      Assoc(EscapeByte(a[0]), Escape(a[1..]), Escape(b));
    }
  }

  // Where no 0x7d is followed by 1 or 2 the reading loop copies all but the last byte.
  lemma {:induction false} PlainIsCopied(e: seq<byte>, i: nat)
    requires i < |e|
    requires forall k :: i <= k < |e| - 1 ==> !(e[k] == 0x7d && (e[k + 1] == 1 || e[k + 1] == 2))
    ensures Unescape(e, i) == e[i..|e| - 1]
    decreases |e| - i
  {
    if i + 1 < |e| {
      PlainIsCopied(e, i + 1);
    }
  }

  // What is refused: a packet of fewer than three bytes or of more than 4096.
  lemma EncodedIff(data: seq<byte>)
    ensures Encoded(data).Some? <==> 3 <= |data| <= 4096
    ensures Encoded(data).Some? ==> Encoded(data).value[0] == data[0]
                                    && Encoded(data).value[|Encoded(data).value| - 1] == data[|data| - 1]
  {
  }

  // Two bodies never share an escaped form.
  lemma EscapeInjective(a: seq<byte>, b: seq<byte>)
    requires Escape(a) == Escape(b)
    ensures a == b
  {
    UnescapeInverts([], a, MARK);
    UnescapeInverts([], b, MARK);
  }

  function Encoded(data: seq<byte>): Option<seq<byte>> {
    if |data| <= 2 || |data| > MAX_PACK_LEN then None
    else Some([data[0]] + Escape(data[1..|data| - 1]) + [data[|data| - 1]])
  }

  // decode808 writes the first byte, then what its loop reads starting over at that
  // same byte, then the last one.
  function Decoded808(e: seq<byte>): Option<seq<byte>>
    requires e != []
  {
    if |e| > MAX_PACK_LEN then None else Some([e[0]] + Unescape(e, 0) + [e[|e| - 1]])
  }

  // So a packet comes back with its first byte doubled, exactly when that byte
  // does not form an escape with the second one and the escaped packet fits.
  lemma DecodedEncodedIff(data: seq<byte>)
    requires Encoded(data).Some?
    ensures var e := Encoded(data).value;
            Decoded808(e) == Some([data[0]] + data)
            <==> |e| <= MAX_PACK_LEN && !(data[0] == ESCAPE && (data[1] == 1 || data[1] == 2))
  {
    hide Escape, Unescape;
    var first, body, last := data[0], data[1..|data| - 1], data[|data| - 1];
    var e := [first] + Escape(body) + [last];
    assert data == [first] + body + [last];
    if first == ESCAPE && (body[0] == 1 || body[0] == 2) {
      FirstIsRead(first, body, last);
      assert |[first] + Unescape(e, 0) + [last]| == |data| < |[first] + data|;
    } else {
      FirstIsCopied(first, body, last);
      Assoc([first], [first] + body, [last]);
    }
  }

  // The first byte and the second make one byte of the body read.
  lemma FirstIsRead(first: byte, body: seq<byte>, last: byte)
    requires body != [] && first == ESCAPE && (body[0] == 1 || body[0] == 2)
    ensures |Unescape([first] + Escape(body) + [last], 0)| == |body|
  {
    hide Escape, Unescape, EscapeByte;
    var front, inner := [first, body[0]], Escape(body[1..]);
    EscapeFirst(body);
    UnescapeInverts(front, body[1..], last);
    FrontJoins(first, body[0], inner, last);
    ReadsTwo(front + inner + [last]);
  }

  lemma FrontJoins(a: byte, b: byte, inner: seq<byte>, last: byte)
    ensures [a] + ([b] + inner) + [last] == [a, b] + inner + [last]
  {
    Assoc([a], [b], inner);
    assert [a] + [b] == [a, b];
  }

  lemma ReadsTwo(e: seq<byte>)
    requires |e| >= 2 && e[0] == ESCAPE && (e[1] == 1 || e[1] == 2)
    ensures |Unescape(e, 0)| == 1 + |Unescape(e, 2)|
  {
  }

  lemma FirstIsCopied(first: byte, body: seq<byte>, last: byte)
    requires body != [] && !(first == ESCAPE && (body[0] == 1 || body[0] == 2))
    ensures Unescape([first] + Escape(body) + [last], 0) == [first] + body
  {
    hide Escape, Unescape, EscapeByte;
    var e := [first] + Escape(body) + [last];
    EscapeFirst(body);
    UnescapeInverts([first], body, last);
    assert e[1] == Escape(body)[0];
    CopiesOne(e);
  }

  lemma CopiesOne(e: seq<byte>)
    requires |e| >= 2 && !(e[0] == ESCAPE && (e[1] == 1 || e[1] == 2))
    ensures Unescape(e, 0) == [e[0]] + Unescape(e, 1)
  {
  }

  lemma EscapeFirst(body: seq<byte>)
    requires body != []
    ensures Escape(body) != []
    ensures Escape(body)[0] == if body[0] == MARK then ESCAPE else body[0]
    ensures body[0] != MARK && body[0] != ESCAPE ==> Escape(body) == [body[0]] + Escape(body[1..])
  {
  }

  method EncodePack(data: seq<byte>) returns (r: Option<seq<byte>>)
    ensures r == Encoded(data)
  {
    if |data| <= 2 || |data| > MAX_PACK_LEN { return None; }
    var pack := [data[0]];
    var i := 1;
    while i < |data| - 1
      invariant 1 <= i <= |data| - 1
      invariant pack + Escape(data[i..|data| - 1]) == [data[0]] + Escape(data[1..|data| - 1])
    {
      EscapeNext(pack, data, i);
      if data[i] == MARK {
        pack := pack + [ESCAPE, 2];
      } else if data[i] == ESCAPE {
        pack := pack + [ESCAPE, 1];
      } else {
        pack := pack + [data[i]];
      }
      i := i + 1;
    }
    assert data[i..|data| - 1] == [];
    assert pack == pack + Escape([]);
    r := Some(pack + [data[|data| - 1]]);
  }

  lemma EscapeNext(pack: seq<byte>, data: seq<byte>, i: nat)
    requires i + 1 < |data|
    ensures pack + Escape(data[i..|data| - 1])
         == pack + EscapeByte(data[i]) + Escape(data[i + 1..|data| - 1])
  {
    assert data[i..|data| - 1][1..] == data[i + 1..|data| - 1];
  }

  method Decode808(e: seq<byte>) returns (r: Option<seq<byte>>)
    requires e != []
    ensures r == Decoded808(e)
  {
    if |e| > MAX_PACK_LEN { return None; }
    var pack := [e[0]];
    var i := 0;
    while i < |e| - 1
      invariant 0 <= i <= |e|
      invariant pack + Unescape(e, i) == [e[0]] + Unescape(e, 0)
    {
      if e[i] == ESCAPE && e[i + 1] == 2 {
        pack := pack + [MARK];
        i := i + 1;
      } else if e[i] == ESCAPE && e[i + 1] == 1 {
        pack := pack + [ESCAPE];
        i := i + 1;
      } else {
        pack := pack + [e[i]];
      }
      i := i + 1;
    }
    assert pack == pack + Unescape(e, i);
    r := Some(pack + [e[|e| - 1]]);
  }
}
