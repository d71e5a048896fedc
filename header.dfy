/** The column check applied to every export (validate_dataframe_header). */
module Header {
  import opened Wrappers

  /** The ten columns of a search-portal export, in order. */
  const REQUIRED_HEADER: seq<string> := [
    "N\U{00B0}",
    "Nombre o Sigla de la Entidad",
    "Fecha y Hora de Publicacion",
    "Nomenclatura",
    "Reiniciado Desde",
    "Objeto de Contrataci\U{00F3}n",
    "Descripci\U{00F3}n de Objeto",
    "Valor Referencial / Valor Estimado",
    "Moneda",
    "Versi\U{00F3}n SEACE"
  ]

  /** The older name of the estimated-value column, and the rename map the fetchers pass. */
  const LEGACY_VALUE_COLUMN := "VR / VE / Cuant\U{00ED}a de la contrataci\U{00F3}n"
  const RENAME_MAP: map<string, string> := map[LEGACY_VALUE_COLUMN := "Valor Referencial / Valor Estimado"]

  /** Both failures are raised as ValueError; they differ in their message. */
  datatype HeaderError =
    | InvalidWithoutRenameMap   // header wrong and the map empty (or None)
    | InvalidAfterRename        // header still wrong once the map is applied

  /** DataFrame.rename(columns=m, errors='ignore'): each column named in m takes its new name. */
  function Rename(header: seq<string>, m: map<string, string>): seq<string>
  {
    seq(|header|, i requires 0 <= i < |header| => if header[i] in m then m[header[i]] else header[i])
  }

  /**
   * The checked header: unchanged when it already is the required one; otherwise the renamed
   * header when renaming makes it the required one; otherwise an error. A rename map of None
   * is the empty map.
   */
  function ValidateHeader(header: seq<string>, renameMap: map<string, string>): (r: Result<seq<string>, HeaderError>)
    ensures r.Success? <==> header == REQUIRED_HEADER || (renameMap != map[] && Rename(header, renameMap) == REQUIRED_HEADER)
    ensures r.Success? ==> r.value == REQUIRED_HEADER
    ensures header != REQUIRED_HEADER && renameMap == map[] ==> r == Failure(InvalidWithoutRenameMap)
    ensures header != REQUIRED_HEADER && renameMap != map[] && r.Failure? ==> r.error == InvalidAfterRename
  {
    if header == REQUIRED_HEADER then Success(header)
    else if renameMap == map[] then Failure(InvalidWithoutRenameMap)
    else
      var renamed := Rename(header, renameMap);
      if renamed == REQUIRED_HEADER then Success(renamed) else Failure(InvalidAfterRename)
  }

  /** A header that passed the check passes it again, unchanged, whatever map is given. */
  lemma ValidatedIsStable(header: seq<string>, renameMap: map<string, string>, other: map<string, string>)
    requires ValidateHeader(header, renameMap).Success?
    ensures ValidateHeader(ValidateHeader(header, renameMap).value, other) == ValidateHeader(header, renameMap)
  {
  }

  /** The required header with its estimated-value column under its older name. */
  function LegacyHeader(): (h: seq<string>)
    ensures |h| == |REQUIRED_HEADER| && h[7] == LEGACY_VALUE_COLUMN
    ensures forall i :: 0 <= i < |h| && i != 7 ==> h[i] == REQUIRED_HEADER[i]
  {
    REQUIRED_HEADER[7 := LEGACY_VALUE_COLUMN]
  }

  /**
   * With the map the fetchers pass, exactly two headers are accepted: the required one and
   * the one that names the estimated-value column by its older name.
   */
  lemma AcceptedHeaders(header: seq<string>)
    ensures ValidateHeader(header, RENAME_MAP).Success? <==> header == REQUIRED_HEADER || header == LegacyHeader()
  {
    var legacy := LegacyHeader();
    if header == legacy {
      assert Rename(header, RENAME_MAP) == REQUIRED_HEADER by {
        forall i | 0 <= i < |header| ensures Rename(header, RENAME_MAP)[i] == REQUIRED_HEADER[i] {
          if i != 7 {
            assert header[i] == REQUIRED_HEADER[i];
            assert REQUIRED_HEADER[i] !in RENAME_MAP;
          }
        }
      }
    }
    if header != REQUIRED_HEADER && Rename(header, RENAME_MAP) == REQUIRED_HEADER {
      var renamed := Rename(header, RENAME_MAP);
      assert |header| == |legacy|;
      // a column that is not renamed already carries its required name
      forall i | 0 <= i < |header| && header[i] !in RENAME_MAP ensures header[i] == REQUIRED_HEADER[i] {
        assert renamed[i] == REQUIRED_HEADER[i];
      }
      // a renamed column is the older value column, and only position 7 may take its new name
      forall i | 0 <= i < |header| && header[i] in RENAME_MAP ensures i == 7 && header[i] == LEGACY_VALUE_COLUMN {
        assert renamed[i] == REQUIRED_HEADER[i] == "Valor Referencial / Valor Estimado";
      }
      assert header[7] in RENAME_MAP;
      assert header == legacy;
    }
  }
}
