/** The two synchronous instructions of `OtherInstructions`: invoking a
    sub-module pushes a frame for it onto the engine's execution stack, and
    setting an event callback forwards the stored library, event and
    sub-module names to the engine. The engine is modelled as far as these
    two touch it: its compiled modules, its execution stack (top at the tail)
    and its table of event callbacks. */
module Instructions {
  import opened Wrappers
  import opened Scanning

  /** A compiled sub-module, known by its name. */
  datatype RuntimeModule = RuntimeModule(name: string)

  /** An activation of a module. */
  datatype Frame = Frame(runtimeModule: RuntimeModule)

  /** The instructions of the file, each with the range that produced it. */
  datatype Instruction =
    | InvokeSubModuleInstruction(subModuleName: string, range: TextRange)
    | MethodInvocationInstruction(library: string, methodName: string, range: TextRange)
    | StorePropertyInstruction(library: string, property: string, range: TextRange)
    | LoadPropertyInstruction(library: string, property: string, range: TextRange)
    | SetEventCallBackInstruction(library: string, eventName: string, subModule: string, range: TextRange)

  /** The instruction derives from the asynchronous base class. */
  predicate IsAsync(instruction: Instruction)
  {
    instruction.MethodInvocationInstruction? || instruction.StorePropertyInstruction? || instruction.LoadPropertyInstruction?
  }

  /** A member of a host library type, as `Libraries.Types[library]` serves
      it to an instruction. */
  datatype LibraryAccess =
    | CallMethod(library: string, methodName: string)
    | SetProperty(library: string, property: string)
    | GetProperty(library: string, property: string)

  /** What the instruction's `Execute` looks up in the host's library
      registry: a method to run, a property setter or a property getter; none
      for the two instructions that act on the engine itself. */
  function LibraryAccessOf(instruction: Instruction): (r: Option<LibraryAccess>)
    ensures r.Some? ==> !instruction.InvokeSubModuleInstruction? && r.value.library == instruction.library
  {
    match instruction
    case MethodInvocationInstruction(library, methodName, _) => Some(CallMethod(library, methodName))
    case StorePropertyInstruction(library, property, _) => Some(SetProperty(library, property))
    case LoadPropertyInstruction(library, property, _) => Some(GetProperty(library, property))
    case _ => None
  }

  /** Exactly the instructions that reach into a library are asynchronous;
      invoking a sub-module and registering a callback act on the engine and
      run to completion. */
  lemma AsyncExactlyWhenCallingLibrary(instruction: Instruction)
    ensures IsAsync(instruction) <==> LibraryAccessOf(instruction).Some?
    ensures !IsAsync(instruction) <==> (instruction.InvokeSubModuleInstruction? || instruction.SetEventCallBackInstruction?)
  {
  }

  /** The stack after pushing a frame for `subModuleName`, or the failed
      lookup. */
  function PushFrame(modules: map<string, RuntimeModule>, stack: seq<Frame>, subModuleName: string): (r: Result<seq<Frame>, LookupError>)
    ensures r.Err? <==> subModuleName !in modules
    ensures r.Err? ==> r.error == KeyNotFound(subModuleName)
    ensures r.Ok? ==> |r.value| == |stack| + 1
    ensures r.Ok? ==> r.value[..|stack|] == stack
    ensures r.Ok? ==> r.value[|stack|] == Frame(modules[subModuleName])
  {
    if subModuleName in modules then Ok(stack + [Frame(modules[subModuleName])]) else Err(KeyNotFound(subModuleName))
  }

  /** Returning from the pushed frame (dropping the top) gives back the
      stack the invocation started from. */
  lemma ReturnUndoesPush(modules: map<string, RuntimeModule>, stack: seq<Frame>, subModuleName: string)
    requires subModuleName in modules
    ensures var pushed := PushFrame(modules, stack, subModuleName).value;
            pushed[..|pushed| - 1] == stack
  {
  }

  /** The callback table after registering `subModule` for an event. */
  function RegisterCallback(callbacks: map<(string, string), string>, library: string, eventName: string, subModule: string)
    : (r: map<(string, string), string>)
    ensures (library, eventName) in r && r[(library, eventName)] == subModule
    ensures forall key :: key != (library, eventName) ==> (key in r <==> key in callbacks)
    ensures forall key :: key in callbacks && key != (library, eventName) ==> r[key] == callbacks[key]
  {
    callbacks[(library, eventName) := subModule]
  }

  /** Registering a second callback for the same event replaces the first. */
  lemma LastRegistrationWins(callbacks: map<(string, string), string>, library: string, eventName: string, first: string, second: string)
    ensures RegisterCallback(RegisterCallback(callbacks, library, eventName, first), library, eventName, second)
         == RegisterCallback(callbacks, library, eventName, second)
  {
  }

  class SmallBasicEngine {
    /** The compiled modules, by name. */
    const modules: map<string, RuntimeModule>
    /** The execution stack; the tail is the running frame. */
    var executionStack: seq<Frame>
    /** The sub-module to run for each (library, event). */
    var eventCallbacks: map<(string, string), string>

    constructor (modules: map<string, RuntimeModule>, executionStack: seq<Frame>)
      ensures this.modules == modules && this.executionStack == executionStack && eventCallbacks == map[]
    {
      this.modules := modules;
      this.executionStack := executionStack;
      eventCallbacks := map[];
    }

    /** `SetEventCallback`: records the sub-module for the event. */
    method SetEventCallback(library: string, eventName: string, subModule: string)
      modifies this`eventCallbacks
      ensures eventCallbacks == RegisterCallback(old(eventCallbacks), library, eventName, subModule)
    {
      eventCallbacks := eventCallbacks[(library, eventName) := subModule];
    }
  }

  /** `Execute` of the two synchronous instructions. Invoking a sub-module
      whose name is not a module's fails and leaves the engine as it was. */
  method Execute(instruction: Instruction, engine: SmallBasicEngine) returns (r: Result<(), LookupError>)
    requires !IsAsync(instruction)
    modifies engine`executionStack, engine`eventCallbacks
    ensures instruction.InvokeSubModuleInstruction? ==>
              var pushed := PushFrame(engine.modules, old(engine.executionStack), instruction.subModuleName);
              && (r.Err? <==> pushed.Err?)
              && (r.Err? ==> r.error == pushed.error && engine.executionStack == old(engine.executionStack))
              && (r.Ok? ==> engine.executionStack == pushed.value)
              && engine.eventCallbacks == old(engine.eventCallbacks)
    ensures instruction.SetEventCallBackInstruction? ==>
              && r.Ok?
              && engine.eventCallbacks
                 == RegisterCallback(old(engine.eventCallbacks), instruction.library, instruction.eventName, instruction.subModule)
              && engine.executionStack == old(engine.executionStack)
  {
    match instruction
    case InvokeSubModuleInstruction(subModuleName, _) =>
      if subModuleName in engine.modules {
        var frame := Frame(engine.modules[subModuleName]);
        engine.executionStack := engine.executionStack + [frame];
        r := Ok(());
      } else {
        r := Err(KeyNotFound(subModuleName));
      }
    case SetEventCallBackInstruction(library, eventName, subModule, _) =>
      engine.SetEventCallback(library, eventName, subModule);
      r := Ok(());
  }
}
