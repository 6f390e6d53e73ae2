/** A column of a generation request: its name, its data-type tag and its options. */
module CustomRules {
  import opened DataFormatTypes

  /**
   * The data-type tag. The five tags the generation switch names, and any other
   * value of the enum, which the switch sends to its discard arm.
   */
  datatype DataType =
    | StdLineId
    | StdPartId
    | StdStepId
    | CustomDataToString
    | CustomDataToNumber
    | Unmatched(ordinal: int)

  /** The union of every generator's knobs; each generator reads only its own. */
  datatype FieldOptions = FieldOptions(
    useTitle: bool,
    pno: int,
    formatType: DataFormatType,
    minLength: int,
    maxLength: int,
    customValues: seq<string>,
    minValue: int,
    maxValue: int,
    decimal: int)

  datatype CustomColumn = CustomColumn(name: string, dataType: DataType, options: FieldOptions)

  /** Rows a count asks for: the count itself, or none when it is not positive. */
  function RowCount(dataCnt: int): nat
  {
    if dataCnt > 0 then dataCnt else 0
  }
}
