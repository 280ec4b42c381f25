/** The three-way result of an optimisation rule (`OResult`) and its `?`
    protocol: `branch` splits a result into the value to continue with or the
    residual to return, `from_output` wraps a value, and three `from_residual`
    conversions let `?` be used on an `Option`, on a `Result` and on an
    `OResult`. Residual types hold only the non-success cases, as the
    `Infallible` payloads of the source make the success case impossible. */
module TryTrait {
  import opened Common

  datatype Error = Error

  datatype OResult<T> = Ok(value: T) | NotApplicable | Err(error: Error)

  /** `OResult<Infallible>`. */
  datatype Residual = ResNotApplicable | ResErr(error: Error)

  /** `Option<Infallible>`: only `None`. */
  datatype NoneResidual = NoneResidual

  /** `Result<Infallible, Error>`: only `Err`. */
  datatype ErrResidual = ErrResidual(error: Error)

  datatype ControlFlow<B, C> = Continue(output: C) | Break(residual: B)

  function FromOutput<T>(x: T): (r: OResult<T>)
    ensures r.Ok? && r.value == x
  {
    Ok(x)
  }

  function Branch<T>(o: OResult<T>): (r: ControlFlow<Residual, T>)
    ensures r.Continue? <==> o.Ok?
    ensures r.Continue? ==> r.output == o.value
  {
    match o
    case Ok(v) => Continue(v)
    case NotApplicable => Break(ResNotApplicable)
    case Err(e) => Break(ResErr(e))
  }

  /** `?` on an `Option`: a `None` makes the rule not applicable. */
  function FromNone<T>(n: NoneResidual): (r: OResult<T>)
    ensures r.NotApplicable?
  {
    NotApplicable
  }

  /** `?` on a `Result`: its error becomes the rule's error. */
  function FromErr<T>(e: ErrResidual): (r: OResult<T>)
    ensures r.Err? && r.error == e.error
  {
    Err(e.error)
  }

  function FromResidual<T>(res: Residual): (r: OResult<T>)
    ensures !r.Ok?
  {
    match res
    case ResNotApplicable => NotApplicable
    case ResErr(e) => Err(e)
  }

  /** What `x?` does in a function returning `OResult<U>`: either continue with
      the output or return the converted residual. */
  function Question<T, U>(x: OResult<T>): (r: ControlFlow<OResult<U>, T>)
    ensures r.Continue? <==> x.Ok?
    ensures r.Continue? ==> r.output == x.value
    ensures x.NotApplicable? ==> r == Break(NotApplicable)
    ensures x.Err? ==> r == Break(Err(x.error))
  {
    match Branch(x)
    case Continue(v) => Continue(v)
    case Break(res) => Break(FromResidual(res))
  }

  /** `branch` after `from_output` continues with the same value. */
  lemma BranchFromOutput<T>(x: T)
    ensures Branch(FromOutput(x)) == Continue(x)
  {
  }

  /** Breaking and converting back rebuilds every result: `branch` loses
      nothing. */
  lemma BranchRoundTrip<T>(o: OResult<T>)
    ensures match Branch(o)
            case Continue(v) => FromOutput(v) == o
            case Break(res) => FromResidual(res) == o
  {
  }

  /** `?` on an `OResult` propagates a failure unchanged, whatever the output
      type of the enclosing function. */
  lemma QuestionPropagates<T, U>(x: OResult<T>)
    ensures Question<T, U>(x).Continue? <==> x.Ok?
    ensures x.NotApplicable? ==> Question<T, U>(x) == Break(NotApplicable)
    ensures x.Err? ==> Question<T, U>(x) == Break(Err(x.error))
  {
  }

  datatype Project = Project(interesting: bool, bad1: Option<Error>, bad2: bool)

  /** `optimize`: the plan's projection is looked up with `?` on an `Option`,
      the first badness check with `?` on a `Result`. The project's methods are
      not implemented in the source, so their answers are the fields of
      `Project`. */
  function Optimize<P>(plan: P, asProject: Option<Project>): (r: OResult<P>)
    ensures r.Ok? <==> asProject.Some? && asProject.value.interesting && asProject.value.bad1.None? && !asProject.value.bad2
    ensures r.Ok? ==> r.value == plan
    ensures r.NotApplicable? <==> asProject.None? || !asProject.value.interesting
  {
    match asProject
    case None => FromNone(NoneResidual)
    case Some(project) =>
      if !project.interesting then NotApplicable
      else match project.bad1
        case Some(e) => FromErr(ErrResidual(e))
        case None =>
          if project.bad2 then Err(Error) else Ok(plan)
  }
}
