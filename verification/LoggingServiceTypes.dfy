/** The parts of the LoggingService custom resource the reconcile cycle reads. A component
    that is absent from the spec is not installed. */
module LoggingServiceTypes {
  import opened Wrappers

  datatype SecretKeySelector = SecretKeySelector(name: string, key: string)

  datatype Auth = Auth(token: Option<SecretKeySelector>, user: Option<SecretKeySelector>, password: Option<SecretKeySelector>)

  datatype Output = Output(enabled: bool, auth: Option<Auth>)

  datatype FluentdOutput = FluentdOutput(loki: Option<Output>, http: Option<Output>)

  datatype FluentbitOutput = FluentbitOutput(loki: Option<Output>, http: Option<Output>, otel: Option<Output>)

  datatype GraylogSpec = GraylogSpec(contentDeployPolicy: string)

  datatype FluentdSpec = FluentdSpec(output: Option<FluentdOutput>)

  datatype AggregatorSpec = AggregatorSpec(
    install: bool, graylogOutput: bool, graylogHost: string, graylogPort: int, output: Option<FluentbitOutput>)

  datatype FluentbitSpec = FluentbitSpec(output: Option<FluentbitOutput>, aggregator: Option<AggregatorSpec>)

  datatype MonitoringAgentSpec = MonitoringAgentSpec(influxDBMode: bool)

  datatype LoggingService = LoggingService(
    name: string,
    graylog: Option<GraylogSpec>,
    fluentd: Option<FluentdSpec>,
    fluentbit: Option<FluentbitSpec>,
    eventsReader: bool,
    monitoringAgent: Option<MonitoringAgentSpec>)
  {
    /** Fluent Bit runs as forwarder and aggregator. */
    predicate HighAvailability() {
      fluentbit.Some? && fluentbit.value.aggregator.Some? && fluentbit.value.aggregator.value.install
    }

    /** Fluent Bit runs as one plain DaemonSet. */
    predicate PlainFluentbit() {
      fluentbit.Some? && !HighAvailability()
    }

    /** The one spec error the operator checks itself. */
    predicate AggregatorMisconfigured()
      requires HighAvailability()
    {
      var a := fluentbit.value.aggregator.value;
      a.graylogOutput && (a.graylogHost == "" || a.graylogPort == 0)
    }
  }
}
