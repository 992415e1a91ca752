/**
 * `ErrorMessages`: the messages the inference service reports, each a
 * class attribute, and `get_error_message`, which looks a message up by
 * the attribute's name and falls back to "Unknown error".
 */
module ErrorMessages {
  import opened Common
  import opened Dicts
  import opened Python
  import Segmentation

  const NoJsonData := "No JSON data found"
  const JsonContentsNotList := "jsonContents must be a list"
  const InvalidModelId := "Invalid modelId provided"
  const InvalidJsonContent := "Each element in jsonContents must be a list with three elements"
  const InvalidFileType := "The file type must be a string"
  const InvalidBuffer := "The file must be a valid Buffer"
  const UnsupportedType := "Unsupported type"
  const DatasetRequirement := "The dataset must contain images with at least 12 faces"
  const InternalServerError := "Internal Server Error"

  /** What `get_error_message` returns for a name that is not declared. */
  const UnknownError := "Unknown error"

  /** The declared attributes, by name, in declaration order. */
  const Declared: Dict<string, string> := [
    ("NO_JSON_DATA", NoJsonData),
    ("JSON_CONTENTS_NOT_LIST", JsonContentsNotList),
    ("INVALID_MODEL_ID", InvalidModelId),
    ("INVALID_JSON_CONTENT", InvalidJsonContent),
    ("INVALID_FILE_TYPE", InvalidFileType),
    ("INVALID_BUFFER", InvalidBuffer),
    ("UNSUPPORTED_TYPE", UnsupportedType),
    ("DATASET_REQUIREMENT", DatasetRequirement),
    ("INTERNAL_SERVER_ERROR", InternalServerError)
  ]

  /** `getattr(ErrorMessages, error_key, "Unknown error")` over the declared messages. */
  function GetErrorMessage(errorKey: string): (msg: string)
    ensures errorKey in Keys(Declared) ==> msg in Values(Declared)
    ensures forall i :: 0 <= i < |Declared| && Declared[i].0 == errorKey ==> msg == Declared[i].1
    ensures errorKey !in Keys(Declared) ==> msg == UnknownError
  {
    match Get(Declared, errorKey)
    case Some(m) =>
      var i :| 0 <= i < |Declared| && Declared[i] == (errorKey, m);
      assert Values(Declared)[i] == m;
      DeclaredDistinct();
      assert forall j :: 0 <= j < |Declared| && Declared[j].0 == errorKey ==> Keys(Declared)[j] == Keys(Declared)[i];
      m
    case None => UnknownError
  }

  /** Nine names, none declared twice, and nine messages, no two alike. */
  lemma DeclaredDistinct()
    ensures |Declared| == 9
    ensures Valid(Declared)
    ensures Distinct(Values(Declared))
  {
    assert Keys(Declared) == ["NO_JSON_DATA", "JSON_CONTENTS_NOT_LIST", "INVALID_MODEL_ID", "INVALID_JSON_CONTENT",
      "INVALID_FILE_TYPE", "INVALID_BUFFER", "UNSUPPORTED_TYPE", "DATASET_REQUIREMENT", "INTERNAL_SERVER_ERROR"];
    assert Values(Declared) == [NoJsonData, JsonContentsNotList, InvalidModelId, InvalidJsonContent,
      InvalidFileType, InvalidBuffer, UnsupportedType, DatasetRequirement, InternalServerError];
  }

  /** The fallback is returned exactly for the names that are not declared: no message reads "Unknown error". */
  lemma UnknownExactlyWhenUndeclared(errorKey: string)
    ensures GetErrorMessage(errorKey) == UnknownError <==> errorKey !in Keys(Declared)
  {
    if errorKey in Keys(Declared) {
      var m := GetErrorMessage(errorKey);
      var i :| 0 <= i < 9 && Values(Declared)[i] == m;
    }
  }

  /** The dataset message names the minimum the segmentation gate enforces: "... at least " + `str(12)` + " faces". */
  lemma DatasetRequirementStatesGate()
    ensures DatasetRequirement == "The dataset must contain images with at least " + NatToString(Segmentation.MinFaces) + " faces"
  {
    assert NatToString(Segmentation.MinFaces) == "12";
  }
}
