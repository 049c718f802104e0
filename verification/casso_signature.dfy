/**
 * `verify_casso_signature_v2` (webhook/views.py:27-102): the bank-aggregator
 * webhook carries a header `t=<timestamp>,v1=<hex HMAC-SHA512>`; the payload is
 * key-sorted, serialised compactly and signed as `timestamp + "." + json`.
 *
 * HMAC-SHA512 with hex output and the compact JSON serialisation are passed in
 * as functions; every other step is modelled exactly.
 */
module CassoSignature {

  import opened Base
  import opened Text
  import opened Json
  import opened KeySort

  /** `part.split('=', 1)` unpacked into two names: absent when `part` has no `=`. */
  function SplitAtEquals(part: string): (r: Option<(string, string)>)
    ensures r.Some? <==> '=' in part
    ensures r.Some? ==> '=' !in r.value.0 && part == r.value.0 + "=" + r.value.1
  {
    if '=' in part then
      var i := IndexOf(part, '=');
      assert part == part[..i] + "=" + part[i + 1..];
      Some((part[..i], part[i + 1..]))
    else
      None
  }

  /**
   * The `parts` dict built from the comma-separated pieces, left to right, a
   * later piece overwriting an earlier one with the same key; absent when a
   * piece has no `=` (the unpacking raises).
   */
  function Collect(pieces: seq<string>): (r: Option<map<string, string>>)
    ensures r.Some? <==> forall i :: 0 <= i < |pieces| ==> '=' in pieces[i]
    ensures r.Some? ==> forall k :: k in r.value ==> '=' !in k
  {
    if |pieces| == 0 then Some(map[])
    else
      var front := pieces[..|pieces| - 1];
      assert forall i :: 0 <= i < |front| ==> front[i] == pieces[i];
      match (Collect(front), SplitAtEquals(pieces[|pieces| - 1]))
      case (Some(m), Some((k, v))) => Some(m[k := v])
      case _ => None
  }

  /** The `parts` dict of a signature header. */
  function ParseHeader(header: string): (r: Option<map<string, string>>)
    ensures r.Some? <==> forall i :: 0 <= i < |Split(header, ',')| ==> '=' in Split(header, ',')[i]
    ensures r.Some? ==> forall k :: k in r.value ==> '=' !in k
  {
    var pieces := Split(header, ',');
    assert forall i :: 0 <= i < |pieces| ==> pieces[i] == Split(header, ',')[i];
    Collect(pieces)
  }

  function KeyOf(piece: string): string
    requires '=' in piece
  {
    SplitAtEquals(piece).value.0
  }

  function ValueOf(piece: string): string
    requires '=' in piece
  {
    SplitAtEquals(piece).value.1
  }

  /** Splitting `k=v` at its first `=` gives back `k` and `v` when `k` has no `=`. */
  lemma SplitAtEqualsOf(k: string, v: string)
    requires '=' !in k
    ensures SplitAtEquals(k + "=" + v) == Some((k, v))
  {
    var part := k + "=" + v;
    assert part[|k|] == '=';
    assert forall j :: 0 <= j < |k| ==> part[j] == k[j];
    assert IndexOf(part, '=') == |k|;
    assert part[..|k|] == k && part[|k| + 1..] == v;
  }

  /** Every key of the dict comes from some piece. */
  lemma {:induction false} CollectKeysComeFromPieces(pieces: seq<string>, k: string)
    requires forall i :: 0 <= i < |pieces| ==> '=' in pieces[i]
    requires k in Collect(pieces).value
    ensures exists i :: 0 <= i < |pieces| && KeyOf(pieces[i]) == k
  {
    var n := |pieces| - 1;
    var front := pieces[..n];
    assert forall i :: 0 <= i < |front| ==> front[i] == pieces[i];
    if KeyOf(pieces[n]) != k {
      CollectKeysComeFromPieces(front, k);
      var i :| 0 <= i < |front| && KeyOf(front[i]) == k;
      assert pieces[i] == front[i];
    }
  }

  /** The key of a piece maps to the value of the last piece naming that key. */
  lemma {:induction false} CollectLastWins(pieces: seq<string>, i: nat)
    requires forall j :: 0 <= j < |pieces| ==> '=' in pieces[j]
    requires i < |pieces|
    requires forall j :: i < j < |pieces| ==> KeyOf(pieces[j]) != KeyOf(pieces[i])
    ensures KeyOf(pieces[i]) in Collect(pieces).value
    ensures Collect(pieces).value[KeyOf(pieces[i])] == ValueOf(pieces[i])
  {
    var n := |pieces| - 1;
    var front := pieces[..n];
    assert forall j :: 0 <= j < |front| ==> front[j] == pieces[j];
    if i < n {
      CollectLastWins(front, i);
    }
  }

  /** Timestamp `t` and signature `v1` of a header, each `""` when missing. */
  datatype HeaderFields = HeaderFields(t: string, v1: string)

  /** `parts.get('t', '')` and `parts.get('v1', '')`. */
  function Fields(parts: map<string, string>): HeaderFields {
    HeaderFields(if "t" in parts then parts["t"] else "",
                 if "v1" in parts then parts["v1"] else "")
  }

  /** Python's `hmac.compare_digest` on str raises unless both are ASCII. */
  predicate IsAscii(s: string) {
    forall i :: 0 <= i < |s| ==> s[i] < 128 as char
  }

  /** `f"{timestamp}.{json_string}"` over the key-sorted payload. */
  function SignedMessage(t: string, payload: Value, dumpsCompact: Value -> string): string {
    t + "." + dumpsCompact(Canon(payload))
  }

  /**
   * `verify_casso_signature_v2(payload, header, secret)`. Every failure
   * inside the `try` (a piece without `=`, a non-ASCII digest in the
   * comparison) is caught and becomes `False`.
   */
  function Verify(payload: Value, header: string, secret: string,
                  hmacSha512Hex: (string, string) -> string,
                  dumpsCompact: Value -> string): (ok: bool)
    ensures ok ==> header != "" && ParseHeader(header).Some?
    ensures ok ==> var f := Fields(ParseHeader(header).value);
                   && f.t != "" && f.v1 != "" && IsAscii(f.v1)
                   && hmacSha512Hex(secret, SignedMessage(f.t, payload, dumpsCompact)) == f.v1
  {
    if header == "" then false
    else
      match ParseHeader(header)
      case None => false
      case Some(parts) =>
        var f := Fields(parts);
        if f.t == "" || f.v1 == "" then false
        else
          var expected := hmacSha512Hex(secret, SignedMessage(f.t, payload, dumpsCompact));
          IsAscii(expected) && IsAscii(f.v1) && expected == f.v1
  }

  /** A header piece without `=` makes verification fail. */
  lemma PieceWithoutEqualsRejects(payload: Value, header: string, secret: string,
                                  hmacSha512Hex: (string, string) -> string,
                                  dumpsCompact: Value -> string, i: nat)
    requires i < |Split(header, ',')| && '=' !in Split(header, ',')[i]
    ensures !Verify(payload, header, secret, hmacSha512Hex, dumpsCompact)
  {
  }

  /** Payloads that differ only in dict key order verify identically. */
  lemma VerifyIgnoresKeyOrder(p: Value, q: Value, header: string, secret: string,
                              hmacSha512Hex: (string, string) -> string,
                              dumpsCompact: Value -> string)
    requires WellFormed(p) && WellFormed(q) && SameUpToOrder(p, q)
    ensures Verify(p, header, secret, hmacSha512Hex, dumpsCompact)
         == Verify(q, header, secret, hmacSha512Hex, dumpsCompact)
  {
    CanonRespectsKeyOrder(p, q);
  }

  /** The header the aggregator sends: `t=<t>,v1=<sig>`. */
  function SignatureHeader(t: string, sig: string): string {
    "t=" + t + ",v1=" + sig
  }

  /** A comma-free timestamp and signature parse back out of the header built from them. */
  lemma ParseSignatureHeader(t: string, sig: string)
    requires ',' !in t && ',' !in sig
    ensures ParseHeader(SignatureHeader(t, sig)) == Some(map["t" := t, "v1" := sig])
  {
    var header := SignatureHeader(t, sig);
    var p0, p1 := "t=" + t, "v1=" + sig;
    assert header == Join([p0, p1], ',');
    assert ',' !in p0 && ',' !in p1;
    SplitJoin([p0, p1], ',');
    assert p0 == "t" + "=" + t && p1 == "v1" + "=" + sig;
    SplitAtEqualsOf("t", t);
    SplitAtEqualsOf("v1", sig);
    assert Split(header, ',') == [p0, p1];
    assert [p0, p1][..1] == [p0];
    assert Collect([p0]) == Some(map["t" := t]) by {
      assert [p0][..0] == [];
    }
    assert Collect([p0, p1]) == Some(map["t" := t]["v1" := sig]);
  }

  /**
   * For the header the aggregator sends, `t=<t>,v1=<sig>` with comma-free
   * parts, the signature is accepted exactly when both parts are non-empty and
   * `sig` is the ASCII HMAC-SHA512 of `t + "." + sorted compact JSON` under the
   * secret: any other `sig` is rejected.
   */
  lemma SignatureHeaderAcceptedIff(payload: Value, t: string, sig: string, secret: string,
                                   hmacSha512Hex: (string, string) -> string,
                                   dumpsCompact: Value -> string)
    requires ',' !in t && ',' !in sig
    ensures Verify(payload, SignatureHeader(t, sig), secret, hmacSha512Hex, dumpsCompact) <==>
              t != "" && sig != "" && IsAscii(sig)
              && sig == hmacSha512Hex(secret, SignedMessage(t, payload, dumpsCompact))
  {
    ParseSignatureHeader(t, sig);
    assert Fields(map["t" := t, "v1" := sig]) == HeaderFields(t, sig);
  }

  /** A signature other than the HMAC of the payload is rejected, whatever the timestamp. */
  lemma ForgedSignatureRejected(payload: Value, t: string, sig: string, secret: string,
                                hmacSha512Hex: (string, string) -> string,
                                dumpsCompact: Value -> string)
    requires ',' !in t && ',' !in sig
    requires sig != hmacSha512Hex(secret, SignedMessage(t, payload, dumpsCompact))
    ensures !Verify(payload, SignatureHeader(t, sig), secret, hmacSha512Hex, dumpsCompact)
  {
    SignatureHeaderAcceptedIff(payload, t, sig, secret, hmacSha512Hex, dumpsCompact);
  }

  /** A piece starts with its key followed by `=`. */
  lemma KeyOfIsPrefix(piece: string)
    requires '=' in piece
    ensures KeyOf(piece) + "=" <= piece
  {
    assert piece == KeyOf(piece) + "=" + ValueOf(piece);
  }

  /** A header none of whose pieces starts with `t=` names no timestamp and is rejected. */
  lemma MissingTimestampRejected(payload: Value, header: string, secret: string,
                                 hmacSha512Hex: (string, string) -> string,
                                 dumpsCompact: Value -> string)
    requires forall i :: 0 <= i < |Split(header, ',')| ==> !("t=" <= Split(header, ',')[i])
    ensures !Verify(payload, header, secret, hmacSha512Hex, dumpsCompact)
  {
    var pieces := Split(header, ',');
    if ParseHeader(header).Some? {
      forall i | 0 <= i < |pieces|
        ensures KeyOf(pieces[i]) != "t"
      {
        KeyOfIsPrefix(pieces[i]);
      }
      if "t" in ParseHeader(header).value {
        CollectKeysComeFromPieces(pieces, "t");
      }
    }
  }

  /**
   * A header built from the timestamp and the HMAC of the unmodified payload
   * under the same secret is accepted.
   */
  lemma SignedPayloadVerifies(payload: Value, t: string, secret: string,
                              hmacSha512Hex: (string, string) -> string,
                              dumpsCompact: Value -> string)
    requires t != "" && ',' !in t
    requires var sig := hmacSha512Hex(secret, SignedMessage(t, payload, dumpsCompact));
             sig != "" && ',' !in sig && IsAscii(sig)
    ensures Verify(payload,
                   SignatureHeader(t, hmacSha512Hex(secret, SignedMessage(t, payload, dumpsCompact))),
                   secret, hmacSha512Hex, dumpsCompact)
  {
    var sig := hmacSha512Hex(secret, SignedMessage(t, payload, dumpsCompact));
    SignatureHeaderAcceptedIff(payload, t, sig, secret, hmacSha512Hex, dumpsCompact);
  }
}
