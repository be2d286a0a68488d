/** The key and value of a metric label, the same in all formats. */
module Labels {
  datatype Label = Label(key: string, value: string)
}
