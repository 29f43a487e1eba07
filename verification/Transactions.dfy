/** Transactions and the text under their signing hash. SHA-256 itself is not modelled:
    statements about hashes are made about the text that is hashed. */
module Transactions {
  import opened Bytes
  import opened Text

  datatype Tx = Tx(
    nonce: u64, from: seq<byte>, to: seq<byte>, value: int, gasLimit: u64, gasPrice: u64,
    lane: byte, encryptedData: seq<byte>, data: seq<byte>, signature: seq<byte>)

  function Parts(tx: Tx): (ps: seq<seq<byte>>) {
    [Decimal(tx.nonce), tx.from, tx.to, Signed(tx.value), Decimal(tx.gasLimit), Decimal(tx.lane),
     Decimal(|tx.data|), Hex(tx.data), Hex(tx.encryptedData)]
  }

  // The text whose hash the sender signs.
  function Preimage(tx: Tx): (s: seq<byte>) {
    Join(Parts(tx))
  }

  lemma JoinMore(part: seq<byte>, rest: seq<seq<byte>>)
    requires rest != []
    ensures Join([part] + rest) == part + [58] + Join(rest)
  {
    assert ([part] + rest)[1..] == rest;
  }

  // The fields in their order, colons between them: numbers in decimal, the call data by length and
  // in hexadecimal, and the encrypted data in hexadecimal.
  lemma PreimageText(tx: Tx)
    ensures Preimage(tx)
         == Decimal(tx.nonce) + [58] + (tx.from + [58] + (tx.to + [58] + (Signed(tx.value) + [58]
          + (Decimal(tx.gasLimit) + [58] + (Decimal(tx.lane) + [58] + (Decimal(|tx.data|) + [58]
          + (Hex(tx.data) + [58] + Hex(tx.encryptedData))))))))
  {
    var ps: seq<seq<byte>> := [Decimal(tx.nonce), tx.from, tx.to, Signed(tx.value), Decimal(tx.gasLimit),
      Decimal(tx.lane), Decimal(|tx.data|), Hex(tx.data), Hex(tx.encryptedData)];
    assert Parts(tx) == ps;
    assert ps[8..] == [ps[8]];
    NextPart(ps, 7);
    NextPart(ps, 6);
    NextPart(ps, 5);
    NextPart(ps, 4);
    NextPart(ps, 3);
    NextPart(ps, 2);
    NextPart(ps, 1);
    NextPart(ps, 0);
    assert ps[0..] == ps;
  }

  lemma NextPart(ps: seq<seq<byte>>, i: nat)
    requires i + 1 < |ps|
    ensures Join(ps[i..]) == ps[i] + [58] + Join(ps[i + 1..])
  {
    assert ps[i..] == [ps[i]] + ps[i + 1..];
    JoinMore(ps[i], ps[i + 1..]);
  }

  // The two transactions agree on every field the signature is meant to cover.
  predicate SameSigned(a: Tx, b: Tx) {
    && a.nonce == b.nonce && a.from == b.from && a.to == b.to && a.value == b.value
    && a.gasLimit == b.gasLimit && a.lane == b.lane && a.data == b.data
    && a.encryptedData == b.encryptedData
  }

  lemma PartsColons(tx: Tx)
    ensures AllColons(Parts(tx)) == 0 <==> ColonFree(tx.from) && ColonFree(tx.to)
  {
    SignedInjective(tx.nonce, 0);
    SignedInjective(tx.value, 0);
    SignedInjective(tx.gasLimit, 0);
    SignedInjective(tx.lane, 0);
    SignedInjective(|tx.data|, 0);
    HexInjective(tx.data, []);
    HexInjective(tx.encryptedData, []);
    var ps := Parts(tx);
    assert ps[1] == tx.from && ps[2] == tx.to;
    assert forall i :: 0 <= i < 9 && i != 1 && i != 2 ==> ColonFree(ps[i]);
  }

  lemma PartsInjective(a: Tx, b: Tx)
    requires Parts(a) == Parts(b)
    ensures SameSigned(a, b)
  {
    var p, q := Parts(a), Parts(b);
    assert p[0] == q[0] && p[1] == q[1] && p[2] == q[2] && p[3] == q[3] && p[4] == q[4]
        && p[5] == q[5] && p[7] == q[7] && p[8] == q[8];
    SignedInjective(a.nonce, b.nonce);
    SignedInjective(a.value, b.value);
    SignedInjective(a.gasLimit, b.gasLimit);
    SignedInjective(a.lane, b.lane);
    HexInjective(a.data, b.data);
    HexInjective(a.encryptedData, b.encryptedData);
  }

  // If the addresses of one transaction hold no colon, no other transaction has its text.
  lemma ColonFreeIsUnique(a: Tx, b: Tx)
    requires ColonFree(a.from) && ColonFree(a.to)
    ensures Preimage(a) == Preimage(b) <==> SameSigned(a, b)
  {
    if Preimage(a) == Preimage(b) {
      PartsColons(a);
      PartsColons(b);
      ColonsOfJoin(Parts(a));
      ColonsOfJoin(Parts(b));
      JoinInjective(Parts(a), Parts(b));
      PartsInjective(a, b);
    }
  }

  // Moving a colon across the border between From and To leaves the text unchanged.
  lemma ShiftedBorder(tx: Tx, a: seq<byte>, b: seq<byte>, c: seq<byte>)
    ensures Preimage(tx.(from := a + [COLON] + b, to := c))
         == Preimage(tx.(from := a, to := b + [COLON] + c))
  {
    var p, q := Parts(tx.(from := a + [COLON] + b, to := c)), Parts(tx.(from := a, to := b + [COLON] + c));
    var rest := p[3..];
    assert q[3..] == rest;
    assert p[1..][1..] == p[2..] && p[2..][1..] == rest && q[1..][1..] == q[2..] && q[2..][1..] == rest;
    assert Join(p[1..]) == a + [COLON] + b + [COLON] + (c + [COLON] + Join(rest));
    assert Join(q[1..]) == a + [COLON] + (b + [COLON] + c + [COLON] + Join(rest));
    assert Join(p[1..]) == Join(q[1..]);
  }

  // The text under the hash determines the signed fields of a transaction exactly when neither
  // of its addresses holds a colon.
  lemma PreimageUnambiguous(tx: Tx)
    ensures (forall other: Tx :: Preimage(other) == Preimage(tx) ==> SameSigned(other, tx))
       <==> ColonFree(tx.from) && ColonFree(tx.to)
  {
    if ColonFree(tx.from) && ColonFree(tx.to) {
      forall other: Tx | Preimage(other) == Preimage(tx) ensures SameSigned(other, tx) {
        ColonFreeIsUnique(tx, other);
      }
    } else if !ColonFree(tx.from) {
      var k :| 0 <= k < |tx.from| && tx.from[k] == COLON;
      var a, b := tx.from[..k], tx.from[k + 1..];
      assert tx.from == a + [COLON] + b;
      ShiftedBorder(tx, a, b, tx.to);
      var other := tx.(from := a, to := b + [COLON] + tx.to);
      assert tx == tx.(from := a + [COLON] + b, to := tx.to);
      assert |other.from| < |tx.from| && !SameSigned(other, tx);
      assert Preimage(other) == Preimage(tx);
    } else {
      var k :| 0 <= k < |tx.to| && tx.to[k] == COLON;
      var b, c := tx.to[..k], tx.to[k + 1..];
      assert tx.to == b + [COLON] + c;
      ShiftedBorder(tx, tx.from, b, c);
      var other := tx.(from := tx.from + [COLON] + b, to := c);
      assert tx == tx.(from := tx.from, to := b + [COLON] + c);
      assert |other.to| < |tx.to| && !SameSigned(other, tx);
      assert Preimage(other) == Preimage(tx);
    }
  }
}
