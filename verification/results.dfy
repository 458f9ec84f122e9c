/** Outcomes of the tournament manager's operations: a value, or the error
    the program raises at that point. Every raise site of the modelled code
    has its own constructor, so that contracts can say which one fires. */
module Results {

  datatype Option<+T> = None | Some(value: T)

  /** The exceptions of the modelled code, named after their cause. */
  datatype Error =
    | NotEnoughLines(lines: nat)       // ValueError raised by the output parser (manager.py:112)
    | InvalidLiteral(token: string)    // ValueError raised by int() on a rank line
    | MissingToken(line: string)       // IndexError: a rank line without a second token
    | IndexOutOfRange(index: int)      // IndexError: the results slot does not exist
    | EmptyRange(low: int, high: int)  // ValueError raised by random.randint(low, high) when high < low
    | DuplicateName(name: string)      // sqlite3.IntegrityError from the unique name column
    | EngineTimeout                    // subprocess.TimeoutExpired from communicate()
    | NotAscii(position: nat)          // UnicodeDecodeError from decode('ascii')
    | ReplayNotMoved(file: string)     // OSError or shutil.Error: the replay file can be neither moved nor deleted (manager.py:100-107)

  /** A value or an error; usable with `:-`. */
  datatype Result<+T> = Ok(value: T) | Err(error: Error) {

    predicate IsFailure() {
      Err?
    }

    function PropagateFailure<U>(): Result<U>
      requires Err?
    {
      Err(error)
    }

    function Extract(): T
      requires Ok?
    {
      value
    }
  }
}
