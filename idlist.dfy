/**
 * The comma-separated text in which a document stores its editor and viewer
 * ids: `','.join(str(id) ...)` to encode, `[int(id) for id in text.split(',') if id]`
 * to decode.
 */
module IdList {
  import opened Options
  import opened Text

  /** `[str(id) for id in ids]`. */
  function Decimals(ids: seq<int>): (r: seq<string>)
    ensures |r| == |ids|
    ensures forall i :: 0 <= i < |ids| ==> r[i] == IntToString(ids[i])
  {
    seq(|ids|, i requires 0 <= i < |ids| => IntToString(ids[i]))
  }

  /** `','.join([str(id) for id in ids])`, one id at a time (`EncodeIdsIsJoin`). */
  function EncodeIds(ids: seq<int>): string {
    if ids == [] then ""
    else if |ids| == 1 then IntToString(ids[0])
    else IntToString(ids[0]) + "," + EncodeIds(ids[1..])
  }

  /**
   * `[int(p) for p in pieces if p]`: empty pieces are skipped; `None` stands
   * for the `ValueError` a non-integer piece raises.
   */
  function ParsePieces(pieces: seq<string>): Option<seq<int>> {
    if pieces == [] then Some([])
    else
      var rest := ParsePieces(pieces[1..]);
      if pieces[0] == [] then rest
      else match ParseInt(pieces[0])
        case None => None
        case Some(v) => if rest.Some? then Some([v] + rest.value) else None
  }

  /** Decoding of a non-empty id text. */
  function DecodeIds(text: string): Option<seq<int>> {
    ParsePieces(Split(text, ","))
  }

  /** Text that `EncodeIds` wrote: the encoding of some list of ids. */
  ghost predicate Canonical(text: string) {
    exists ids :: EncodeIds(ids) == text
  }

  /** The encoding is the join of the decimal forms. */
  lemma {:induction false} EncodeIdsIsJoin(ids: seq<int>)
    ensures EncodeIds(ids) == Join(Decimals(ids), ",")
  {
    if |ids| > 1 {
      EncodeIdsIsJoin(ids[1..]);
      assert Decimals(ids)[1..] == Decimals(ids[1..]);
    }
  }

  lemma {:induction false} ParseDecimals(ids: seq<int>)
    ensures ParsePieces(Decimals(ids)) == Some(ids)
  {
    if ids != [] {
      assert Decimals(ids)[1..] == Decimals(ids[1..]);
      ParseDecimals(ids[1..]);
      ParseIntToString(ids[0]);
      assert ids == [ids[0]] + ids[1..];
    }
  }

  /** The encoding is empty exactly for the empty list. */
  lemma EncodeIdsEmpty(ids: seq<int>)
    ensures EncodeIds(ids) == [] <==> ids == []
  {
  }

  /** Decoding undoes encoding, for every list, the empty one included. */
  lemma DecodeEncode(ids: seq<int>)
    ensures DecodeIds(EncodeIds(ids)) == Some(ids)
  {
    if ids == [] {
      var e: string := [];
      assert e + e == e && EncodeIds(ids) == e;
      assert SplitFrom(e, ",", e) == [e + e];
    } else {
      var parts := Decimals(ids);
      forall i | 0 <= i < |parts| ensures ','  !in parts[i] {
        assert parts[i] == IntToString(ids[i]);
      }
      SplitJoin(parts, ",");
      EncodeIdsIsJoin(ids);
      ParseDecimals(ids);
    }
  }

  lemma EncodedIsCanonical(ids: seq<int>)
    ensures Canonical(EncodeIds(ids))
  {
  }

  /** A canonical text decodes, and re-encoding what it decodes to gives the text back. */
  lemma CanonicalDecodes(text: string)
    requires Canonical(text)
    ensures DecodeIds(text).Some? && EncodeIds(DecodeIds(text).value) == text
  {
    var ids :| EncodeIds(ids) == text;
    DecodeEncode(ids);
  }

  /** The decimal form of every listed id occurs in the encoding. */
  lemma MemberOccursInEncoding(ids: seq<int>, x: int)
    requires x in ids
    ensures Contains(EncodeIds(ids), IntToString(x))
  {
    var k :| 0 <= k < |ids| && ids[k] == x;
    EncodeIdsIsJoin(ids);
    JoinContainsPart(Decimals(ids), ",", k);
  }

  /** In a canonical text, the decimal form of every decoded id occurs in the text. */
  lemma CanonicalMemberOccurs(text: string, x: int)
    requires Canonical(text) && DecodeIds(text).Some? && x in DecodeIds(text).value
    ensures Contains(text, IntToString(x))
  {
    CanonicalDecodes(text);
    MemberOccursInEncoding(DecodeIds(text).value, x);
  }
}
