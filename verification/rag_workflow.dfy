/**
 * The answer graph of project/src/llm_rag/graph/workflow.py: four nodes, an
 * entry point, one conditional edge out of `analisar` and three fixed
 * edges.  The graph runtime is replaced by an explicit transition function
 * and a run that follows it to END.
 */
module RagWorkflow {
  import opened Common
  import opened RagRecords
  import opened Seqs
  import opened RagNodes

  datatype Node = Analisar | Recuperar | Formatar | Gerar | End

  /** The longest path from a node to END; every edge lowers it. */
  function Rank(n: Node): nat
  {
    match n
    case Analisar => 4
    case Recuperar => 3
    case Formatar => 2
    case Gerar => 1
    case End => 0
  }

  /**
   * The edge table.  The conditional edge out of `analisar` is decided on
   * the state `analisar` produced; `recuperar -> formatar -> gerar -> END`
   * are unconditional.
   */
  function Next(n: Node, s: AgentState): (m: Node)
    requires n != End
    ensures Rank(m) < Rank(n)
    ensures n == Analisar ==> (m == End <==> ErroSet(s)) && (m == Recuperar <==> !ErroSet(s) && s.precisaRecuperacao)
    ensures n == Recuperar ==> m == Formatar
    ensures n == Formatar ==> m == Gerar
    ensures n == Gerar ==> m == End
  {
    match n
    case Analisar =>
      (match DecidirProximoNo(s)
       case ParaRecuperar => Recuperar
       case ParaGerar => Gerar
       case Fim => End)
    case Recuperar => Formatar
    case Formatar => Gerar
    case Gerar => End
  }

  function Exec(env: Env, n: Node, s: AgentState): AgentState
    requires n != End
  {
    match n
    case Analisar => AnalisarConsulta(s)
    case Recuperar => Recuperado(env, s)
    case Formatar => Formatado(env, s)
    case Gerar => Gerado(env, s)
  }

  /** The nodes a run executed, in order, and the state it ended with. */
  datatype Run = Run(trace: seq<Node>, final: AgentState)

  function RunFrom(env: Env, n: Node, s: AgentState): (r: Run)
    ensures |r.trace| <= Rank(n)
    ensures End !in r.trace
    ensures n != End ==> r.trace != [] && r.trace[0] == n
    decreases Rank(n)
  {
    if n == End then Run([], s)
    else
      var t := Exec(env, n, s);
      var rest := RunFrom(env, Next(n, t), t);
      Run([n] + rest.trace, rest.final)
  }

  /** `rag_workflow.invoke(state)`: execution starts at `analisar`. */
  function Invoke(env: Env, s: AgentState): (r: Run)
    ensures |r.trace| <= 4 && r.trace != [] && r.trace[0] == Analisar
  {
    RunFrom(env, Analisar, s)
  }

  lemma RunGerar(env: Env, c: AgentState)
    ensures RunFrom(env, Gerar, c) == Run([Gerar], Gerado(env, c))
  {
    assert RunFrom(env, End, Gerado(env, c)) == Run([], Gerado(env, c));
  }

  lemma RunFormatar(env: Env, b: AgentState)
    ensures RunFrom(env, Formatar, b) == Run([Formatar, Gerar], Gerado(env, Formatado(env, b)))
  {
    RunGerar(env, Formatado(env, b));
  }

  lemma RunRecuperar(env: Env, a: AgentState)
    ensures RunFrom(env, Recuperar, a)
            == Run([Recuperar, Formatar, Gerar], Gerado(env, Formatado(env, Recuperado(env, a))))
  {
    RunFormatar(env, Recuperado(env, a));
  }

  lemma InvokeUnfold(env: Env, s: AgentState)
    ensures Invoke(env, s)
            == var a := AnalisarConsulta(s);
               var rest := RunFrom(env, Next(Analisar, a), a);
               Run([Analisar] + rest.trace, rest.final)
  {
    assert Exec(env, Analisar, s) == AnalisarConsulta(s);
  }

  lemma TraceLiterals()
    ensures [Analisar] + [Gerar] == [Analisar, Gerar]
    ensures [Analisar] + [Recuperar, Formatar, Gerar] == [Analisar, Recuperar, Formatar, Gerar]
  {
  }

  lemma InvokeWithError(env: Env, s: AgentState)
    requires ErroSet(s)
    ensures Invoke(env, s) == Run([Analisar], AnalisarConsulta(s))
  {
    var a := AnalisarConsulta(s);
    InvokeUnfold(env, s);
    assert Next(Analisar, a) == End;
    assert RunFrom(env, End, a) == Run([], a);
  }

  lemma InvokeWithoutRetrieval(env: Env, s: AgentState)
    requires !ErroSet(s) && !NeedsRetrieval(s.consulta)
    ensures Invoke(env, s) == Run([Analisar, Gerar], Gerado(env, AnalisarConsulta(s)))
  {
    var a := AnalisarConsulta(s);
    InvokeUnfold(env, s);
    assert Next(Analisar, a) == Gerar;
    RunGerar(env, a);
    TraceLiterals();
  }

  lemma InvokeWithRetrieval(env: Env, s: AgentState)
    requires !ErroSet(s) && NeedsRetrieval(s.consulta)
    ensures Invoke(env, s) == Run([Analisar, Recuperar, Formatar, Gerar],
                                  Gerado(env, Formatado(env, Recuperado(env, AnalisarConsulta(s)))))
  {
    var a := AnalisarConsulta(s);
    InvokeUnfold(env, s);
    assert Next(Analisar, a) == Recuperar;
    RunRecuperar(env, a);
    TraceLiterals();
  }

  /** The three runs the graph allows, with the state each ends in. */
  lemma InvokeCases(env: Env, s: AgentState)
    ensures ErroSet(s) ==> Invoke(env, s) == Run([Analisar], AnalisarConsulta(s))
    ensures !ErroSet(s) && !NeedsRetrieval(s.consulta) ==>
              Invoke(env, s) == Run([Analisar, Gerar], Gerado(env, AnalisarConsulta(s)))
    ensures !ErroSet(s) && NeedsRetrieval(s.consulta) ==>
              Invoke(env, s) == Run([Analisar, Recuperar, Formatar, Gerar],
                                    Gerado(env, Formatado(env, Recuperado(env, AnalisarConsulta(s)))))
  {
    if ErroSet(s) {
      InvokeWithError(env, s);
    } else if !NeedsRetrieval(s.consulta) {
      InvokeWithoutRetrieval(env, s);
    } else {
      InvokeWithRetrieval(env, s);
    }
  }

  /** The three paths through the graph, and which input takes which. */
  lemma InvokePaths(env: Env, s: AgentState)
    ensures Invoke(env, s).trace == [Analisar] <==> ErroSet(s)
    ensures Invoke(env, s).trace == [Analisar, Gerar] <==> !ErroSet(s) && !NeedsRetrieval(s.consulta)
    ensures Invoke(env, s).trace == [Analisar, Recuperar, Formatar, Gerar] <==> !ErroSet(s) && NeedsRetrieval(s.consulta)
  {
    InvokeCases(env, s);
  }

  lemma TraceDistinct()
    ensures Distinct([Analisar]) && Distinct([Analisar, Gerar]) && Distinct([Analisar, Recuperar, Formatar, Gerar])
  {
  }

  /** `recuperar` runs at most once, and only on inputs that need retrieval. */
  lemma RecuperarAtMostOnce(env: Env, s: AgentState)
    ensures Distinct(Invoke(env, s).trace)
    ensures Recuperar in Invoke(env, s).trace ==> NeedsRetrieval(s.consulta)
  {
    InvokePaths(env, s);
    TraceDistinct();
  }

  /** The final state of the full path: the four nodes composed in graph order. */
  lemma FullPathFinal(env: Env, s: AgentState)
    requires !ErroSet(s) && NeedsRetrieval(s.consulta)
    ensures Invoke(env, s).final == Gerado(env, Formatado(env, Recuperado(env, AnalisarConsulta(s))))
  {
    InvokeCases(env, s);
  }

  /** A greeting or a very short query skips retrieval and formatting and is answered without context. */
  lemma GreetingAnsweredWithoutContext(env: Env, s: AgentState)
    requires !ErroSet(s) && !NeedsRetrieval(s.consulta)
    ensures Invoke(env, s).final == Gerado(env, AnalisarConsulta(s))
    ensures PromptFor(AnalisarConsulta(s)) == Ungrounded(s.consulta)
    ensures Invoke(env, s).final.documentosRecuperados == s.documentosRecuperados
    ensures Invoke(env, s).final.fontes == s.fontes
  {
    InvokeCases(env, s);
  }

  /**
   * A failed search does not stop the run: `formatar` turns the empty result
   * into the fixed sentinel, `gerar` is asked with that context, and a
   * successful answer clears the retrieval error.
   */
  lemma RetrievalFailureStillAnswers(env: Env, s: AgentState)
    requires !ErroSet(s) && NeedsRetrieval(s.consulta)
    requires env.buscar(s.consulta).Failure?
    requires env.llm(Grounded(SEM_DOCUMENTOS, s.consulta)).Success?
    ensures Invoke(env, s).trace == [Analisar, Recuperar, Formatar, Gerar]
    ensures Invoke(env, s).final.erro == None
    ensures Invoke(env, s).final.resposta == env.llm(Grounded(SEM_DOCUMENTOS, s.consulta)).value
    ensures Invoke(env, s).final.contexto == SEM_DOCUMENTOS
    ensures Invoke(env, s).final.documentosRecuperados == [] && Invoke(env, s).final.fontes == []
  {
    InvokeCases(env, s);
    var b := Recuperado(env, AnalisarConsulta(s));
    assert PromptFor(Formatado(env, b)) == Grounded(SEM_DOCUMENTOS, s.consulta);
  }

  /**
   * Whenever the run reaches `gerar`, the error it ends with is the
   * generation error, if any: a retrieval error never survives to the end.
   */
  lemma FinalErrorIsGenerationError(env: Env, s: AgentState)
    requires !ErroSet(s)
    ensures Invoke(env, s).final.erro.Some? ==>
              Invoke(env, s).final.resposta == ERRO_GERACAO + Invoke(env, s).final.erro.value
  {
    InvokeCases(env, s);
  }

  /** An input that already carries an error ends right after `analisar`, untouched but for the flag. */
  lemma ErrorInputEndsAtOnce(env: Env, s: AgentState)
    requires ErroSet(s)
    ensures Invoke(env, s).final == AnalisarConsulta(s)
  {
    InvokeCases(env, s);
  }
}
