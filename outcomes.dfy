/** The ways an operation of the file system can end: the Java exceptions of the
    model layer become values of `Error`, so that every error path is modelled. */
module Outcomes {

  /** One variant per distinct failure the model layer raises. */
  datatype Error =
    // File.validateFileName
    | EmptyName
    | NameTooLong
    | NameNotAlphanumeric
    // Document.validateDocumentType
    | InvalidDocumentType
    // CVFS: a sibling already has the name / no sibling has it / it is a Document
    | FileExists
    | FileNotFound
    | NotADirectory
    // CVFS.checkDiskSize
    | DiskFull
    // FileCriterion: name of length other than 2 / not alphanumeric
    | CriterionNameLength
    | CriterionNameNotAlphanumeric
    // simple criteria: operator / value rejected; binary criteria: operand rejected
    | InvalidOperator
    | InvalidValue
    | InvalidOperand
    // CVFS: criterion name not registered
    | CriterionNotFound
    // NullPointerException: the registered criterion searched with is null
    | NullReference
    // an exception while evaluating a criterion on a file: the substring of a
    // quoted literal shorter than two characters, or a null composite operand
    | EvaluationFailed
    // CVFS.undo / CVFS.redo on an empty stack
    | NothingToUndo
    | NothingToRedo
    // EmptyStackException from VirtualDisk.changeWorkingDirectoryToPrevious
    | EmptyNavigationStack

  /** Result of an operation that returns nothing. */
  datatype Outcome = Pass | Fail(error: Error)

  /** Result of an operation that returns a value. */
  datatype Result<+T> = Ok(value: T) | Err(error: Error)

  datatype Option<+T> = None | Some(value: T)
}
