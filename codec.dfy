/** The layout the derived `BFieldCodec` gives a structure whose fields are
    all prefixed by their length: for each field in declaration order, one
    word holding the length of the field's encoding, then that encoding. */
module FieldCodec {
  import opened Field
  import opened Wrappers

  /** Every field encoding is short enough for its length to fit in one
      field element. */
  predicate Framable(fields: seq<seq<Felt>>)
  {
    forall i :: 0 <= i < |fields| ==> |fields[i]| < P
  }

  /** The length-prefixed concatenation of the field encodings. */
  function Frame(fields: seq<seq<Felt>>): seq<Felt>
    requires Framable(fields)
  {
    if |fields| == 0 then []
    else [|fields[0]| as Felt] + fields[0] + Frame(fields[1..])
  }

  /** Reads exactly n length-prefixed fields; fails on a field that runs
      past the end and on words left over after the last field. */
  function Unframe(words: seq<Felt>, n: nat): (r: Option<seq<seq<Felt>>>)
    ensures r.Some? ==> |r.value| == n
  {
    if n == 0 then (if |words| == 0 then Some([]) else None)
    else if |words| == 0 || |words| < 1 + words[0] as int then None
    else
      var size: int := words[0];
      match Unframe(words[1 + size..], n - 1)
      case None => None
      case Some(rest) => Some([words[1..1 + size]] + rest)
  }

  lemma {:induction false} UnframeFrame(fields: seq<seq<Felt>>)
    requires Framable(fields)
    ensures Unframe(Frame(fields), |fields|) == Some(fields)
  {
    if |fields| > 0 {
      var words := Frame(fields);
      var size := |fields[0]|;
      assert words[0] == size;
      assert words[1..1 + size] == fields[0];
      assert words[1 + size..] == Frame(fields[1..]);
      UnframeFrame(fields[1..]);
      assert [fields[0]] + fields[1..] == fields;
    }
  }

  /** Conversely, whatever `Unframe` accepts is the framing of what it
      returns, so the layout has exactly one reading. */
  lemma {:induction false} FrameUnframe(words: seq<Felt>, n: nat)
    requires Unframe(words, n).Some?
    ensures Framable(Unframe(words, n).value)
    ensures Frame(Unframe(words, n).value) == words
  {
    if n > 0 {
      var size: int := words[0];
      FrameUnframe(words[1 + size..], n - 1);
      var fields := Unframe(words, n).value;
      assert fields[1..] == Unframe(words[1 + size..], n - 1).value;
      assert words == [words[0]] + words[1..1 + size] + words[1 + size..];
    }
  }
}
