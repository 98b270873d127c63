// Benchmark tasks and their comparable spellings.

module BenchTasks {
  import opened QueryModel

  datatype SyntaxVariant = SyntaxVariant(labelText: string, note: string, specs: seq<string>)

  datatype BenchTask = BenchTask(
    id: string,
    instruction: string,
    specs: seq<string>,
    tests: seq<string>,
    variants: seq<SyntaxVariant>,
    tags: seq<string>)

  // A variant is scored against its own specs if it has any.
  function SpecsFor(t: BenchTask, variant: Option<SyntaxVariant>): seq<string> {
    match variant
    case Some(v) => if v.specs != [] then v.specs else t.specs
    case None => t.specs
  }
}
