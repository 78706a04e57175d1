/**
 * Startup of the dashboard: the configuration is loaded, the guard either
 * stops startup or one queue handle is made per configured name, and the
 * handles are registered with the monitoring panel.
 */
module Dashboard {
  import opened Wrappers
  import opened Text
  import opened QueueConfig

  /** A handle bound to one named queue of the external queue store. */
  datatype QueueHandle = QueueHandle(name: string)

  /** What is running once startup got past the guard. */
  datatype Deployment = Deployment(queues: seq<QueueHandle>, password: string)

  /** `names.map(name => createQueue(name))`: one handle per name, in order. */
  function CreateQueueHandles(names: seq<string>): (handles: seq<QueueHandle>)
    ensures |handles| == |names|
    ensures forall k :: 0 <= k < |names| ==> handles[k].name == names[k]
  {
    if names == [] then [] else [QueueHandle(names[0])] + CreateQueueHandles(names[1..])
  }

  /**
   * The launcher from reading the environment to registering the queues:
   * it stops exactly when `QUEUES` is unset or empty; otherwise it watches
   * one queue per parsed name, in the order `QUEUES` lists them, and each
   * watched name is well formed.
   */
  function Boot(env: Env): (r: Result<Deployment, StartupError>)
    ensures r.Err? <==> env.queues == None || env.queues == Some("")
    ensures r.Ok? ==> |r.value.queues| == |ParseQueueNames(env.queues.value)|
    ensures r.Ok? ==> forall k :: 0 <= k < |r.value.queues|
                        ==> r.value.queues[k].name == ParseQueueNames(env.queues.value)[k]
    ensures r.Ok? ==> |r.value.queues| == NonBlankCount(SplitOnSpace(env.queues.value))
    ensures r.Ok? ==> forall k :: 0 <= k < |r.value.queues| ==> IsQueueName(r.value.queues[k].name)
    ensures r.Ok? ==> r.value.password == EffectivePassword(env.password)
  {
    match LoadConfig(env)
    case Err(e) => Err(e)
    case Ok(config) => Ok(Deployment(CreateQueueHandles(config.queueNames), config.password))
  }

  /**
   * `QUEUES="a b"` with `PASSWORD` unset: two queues, named `a` and `b` in
   * that order, behind the password "123456".
   */
  lemma TwoQueuesDefaultPassword(a: string, b: string)
    requires IsQueueName(a) && IsQueueName(b)
    ensures Boot(Env(Some(a + " " + b), None))
         == Ok(Deployment([QueueHandle(a), QueueHandle(b)], DefaultPassword))
  {
    var env := Env(Some(a + " " + b), None);
    ParseTwoNames(a, b);
    assert a + " " + b != "";
    var r := Boot(env);
    assert r.Ok?;
    assert r.value.queues == [QueueHandle(a), QueueHandle(b)] by {
      assert |r.value.queues| == 2 && r.value.queues[0].name == a && r.value.queues[1].name == b;
    }
  }
}
