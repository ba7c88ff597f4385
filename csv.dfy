/** CSV files as the writers see them: a file is its sequence of rows, a directory maps names to files. */
module Csv {

  type Row = seq<string>

  type Files = map<string, seq<Row>>
}
