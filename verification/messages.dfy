/** The messages several scripts stop with, word for word. */
module Messages {
  const BadInputMode: string := "Input mode must be set with 1 (MFILE) or 2 (Search Folder+ keyword)"
  const NoFilesFound: string := "no files found"
  const BadNameFormat: string := "Output file name format is not valid"
  /** The format check of the Landsat and SAR scripts prints the option
      under a misspelt name, so a bad format stops with this `NameError`. */
  const FormatUndefined: string := "name 'Output_filename_format' is not defined"
  const ClipLayerMissing: string := "Clip layer not found"
}
