/**
 `handlePdoExceptions`: the classifier every helper routes a driver error
 message to. It writes the message and, for a duplicate-entry error, one or two
 diagnostics; the remaining branches are placeholders that write nothing. It
 hands the message back unchanged. The output stream is modelled as the
 sequence of strings `echo`ed, in order.
 */
module ErrorClassifier {
  import opened PhpStrings

  const DuplicateEntryState := "SQLSTATE[23000]"
  const AccessDeniedState := "SQLSTATE[28000]"
  const SyntaxErrorState := "SQLSTATE[42000]"
  const SubjectColumn := "'subject'"
  const IdColumn := "'id'"

  const DuplicateEntryText := "duplicate entry"
  const UsernameTakenText := "Error: that username already exists."

  /** The classifier's branches, named after the error each one recognises. */
  datatype Branch = DuplicateEntry | UsernameTaken | DuplicateId | AccessDenied | SyntaxError

  /** Position of a branch in the source, top to bottom. */
  function Rank(b: Branch): nat
  {
    match b
    case DuplicateEntry => 0
    case UsernameTaken => 1
    case DuplicateId => 2
    case AccessDenied => 3
    case SyntaxError => 4
  }

  /** The branches whose condition holds for `message`, in execution order. */
  function FiredBranches(message: string): (bs: seq<Branch>)
    ensures DuplicateEntry in bs <==> Occurs(message, DuplicateEntryState)
    ensures UsernameTaken in bs <==> Occurs(message, DuplicateEntryState) && Occurs(message, SubjectColumn)
    ensures DuplicateId in bs <==>
      Occurs(message, DuplicateEntryState) && !Occurs(message, SubjectColumn) && Occurs(message, IdColumn)
    ensures AccessDenied in bs <==> Occurs(message, AccessDeniedState)
    ensures SyntaxError in bs <==> Occurs(message, SyntaxErrorState)
    ensures forall i, j :: 0 <= i < j < |bs| ==> Rank(bs[i]) < Rank(bs[j])
  {
    var duplicate := Contains(message, DuplicateEntryState);
    var subject := Contains(message, SubjectColumn);
    var id := Contains(message, IdColumn);
    var column: seq<Branch> := if subject then [UsernameTaken] else if id then [DuplicateId] else [];
    var first: seq<Branch> := if duplicate then [DuplicateEntry] + column else [];
    var second: seq<Branch> := if Contains(message, AccessDeniedState) then [AccessDenied] else [];
    var third: seq<Branch> := if Contains(message, SyntaxErrorState) then [SyntaxError] else [];
    assert forall b :: b in first + second + third <==> b in first || b in second || b in third;
    assert forall b :: b in first ==> Rank(b) <= 2;
    first + second + third
  }

  /** What a branch writes; the placeholder branches write nothing. */
  function Diagnostic(b: Branch): seq<string>
  {
    match b
    case DuplicateEntry => [DuplicateEntryText]
    case UsernameTaken => [UsernameTakenText]
    case DuplicateId => []
    case AccessDenied => []
    case SyntaxError => []
  }

  /** Everything the branches `bs` write, in order. */
  function EchoAll(bs: seq<Branch>): seq<string>
  {
    if |bs| == 0 then [] else Diagnostic(bs[0]) + EchoAll(bs[1..])
  }

  lemma {:induction false} EchoAllConcat(a: seq<Branch>, b: seq<Branch>)
    ensures EchoAll(a + b) == EchoAll(a) + EchoAll(b)
    decreases |a|
  {
    if |a| > 0 {
      assert (a + b)[1..] == a[1..] + b;
      EchoAllConcat(a[1..], b);
    } else {
      assert a + b == b;
    }
  }

  /** Only the duplicate-entry state and the `'subject'` column decide what
      the branches write: the `'id'`, access-denied and syntax-error branches
      are silent. */
  lemma SilentBranchesEchoNothing(message: string)
    ensures EchoAll(FiredBranches(message))
         == if Occurs(message, DuplicateEntryState) then
              [DuplicateEntryText] + (if Occurs(message, SubjectColumn) then [UsernameTakenText] else [])
            else []
  {
    var duplicate :=
      if Contains(message, DuplicateEntryState) then
        [DuplicateEntry]
        + (if Contains(message, SubjectColumn) then [UsernameTaken]
           else if Contains(message, IdColumn) then [DuplicateId]
           else [])
      else [];
    var denied := if Contains(message, AccessDeniedState) then [AccessDenied] else [];
    var syntax := if Contains(message, SyntaxErrorState) then [SyntaxError] else [];
    EchoAllConcat(duplicate + denied, syntax);
    EchoAllConcat(duplicate, denied);
    if Contains(message, DuplicateEntryState) {
      var column :=
        if Contains(message, SubjectColumn) then [UsernameTaken]
        else if Contains(message, IdColumn) then [DuplicateId]
        else [];
      EchoAllConcat([DuplicateEntry], column);
    }
  }

  /** The result of one call: the value returned and the strings written. */
  datatype Handled = Handled(returned: string, echoed: seq<string>)

  function HandlePdoExceptions(message: string): (h: Handled)
    ensures h.returned == message
    ensures 1 <= |h.echoed| <= 3 && h.echoed[0] == message
    ensures DuplicateEntryText in h.echoed[1..] <==> Occurs(message, DuplicateEntryState)
    ensures UsernameTakenText in h.echoed[1..]
        <==> Occurs(message, DuplicateEntryState) && Occurs(message, SubjectColumn)
    ensures Occurs(message, DuplicateEntryState) ==> h.echoed[1] == DuplicateEntryText
    ensures h.echoed
         == [message]
            + if Occurs(message, DuplicateEntryState) then
                [DuplicateEntryText] + (if Occurs(message, SubjectColumn) then [UsernameTakenText] else [])
              else []
  {
    SilentBranchesEchoNothing(message);
    Handled(message, [message] + EchoAll(FiredBranches(message)))
  }
}
