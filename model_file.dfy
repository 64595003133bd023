/**
 * The framing of saved models: a saved file is a three-byte magic prefix
 * followed by the serialized generator, and an input is loaded as a model
 * exactly when it starts with that prefix. The serialized payload is
 * treated as opaque bytes.
 */
module ModelFile {
  newtype byte = x: int | 0 <= x < 256

  /** `MAGIC_FILE_BYTES`. */
  const MagicFileBytes: seq<byte> := [3, 4, 5]

  /** What the program does with an input. */
  datatype Source =
    | LoadModel(payload: seq<byte>)   // the bytes after the prefix, handed to the deserializer
    | TrainOnText(text: seq<byte>)    // the whole input, handed to the tokenizer

  /** The bytes written by `--save`: the prefix, then the payload. */
  function Save(payload: seq<byte>): (file: seq<byte>)
    ensures |file| == |MagicFileBytes| + |payload|
    ensures file[..|MagicFileBytes|] == MagicFileBytes && file[|MagicFileBytes|..] == payload
  {
    MagicFileBytes + payload
  }

  /** The test on the first three bytes of the input, and what follows from it. */
  function Classify(input: seq<byte>): (r: Source)
    requires |input| >= |MagicFileBytes|
    ensures r.LoadModel? <==> input[..|MagicFileBytes|] == MagicFileBytes
    ensures r.LoadModel? ==> MagicFileBytes + r.payload == input
    ensures r.TrainOnText? ==> r.text == input
  {
    if input[..3] == MagicFileBytes then LoadModel(input[3..]) else TrainOnText(input)
  }

  /** A saved file is read back as the model it holds. */
  lemma SavedFileLoadsBack(payload: seq<byte>)
    ensures Classify(Save(payload)) == LoadModel(payload)
  {
    assert Save(payload)[3..] == payload;
  }

  /** An input is loaded as a model exactly when it is some saved file. */
  lemma LoadedExactlyWhenSaved(input: seq<byte>)
    requires |input| >= |MagicFileBytes|
    ensures Classify(input).LoadModel? <==> exists p :: Save(p) == input
  {
    if Classify(input).LoadModel? {
      assert Save(input[3..]) == input;
    }
  }
}
