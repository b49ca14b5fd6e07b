/** Option and Result types for the operations whose Python code (get_genome.py, report_qc.py) raises where the model returns an error. */
module Wrappers {

  datatype Option<+T> = None | Some(value: T)

  datatype Result<+T, +E> = Ok(value: T) | Err(error: E)
}
