/** Start-up of the serialnet application: init_app refuses to run without
    the connection manager and otherwise registers the event handler before
    bringing up the network. */
module Serialnet {
  import opened NetMonitor

  /** init_app's result when the connection manager is not configured. */
  const NoConnectionManager: int := -1

  /** init_app. The connection-manager configuration flag and the result of
      net_config_init_app are inputs; init_ip and the status resend of the
      connection manager are outside the model. */
  method InitApp(m: Monitor, connMgrEnabled: bool, netConfigRet: int) returns (ret: int)
    modifies m`callbackRegistered
    ensures !connMgrEnabled ==> ret == NoConnectionManager && m.callbackRegistered == old(m.callbackRegistered)
    ensures connMgrEnabled ==> m.callbackRegistered && ret == netConfigRet
  {
    if !connMgrEnabled {
      return NoConnectionManager;
    }

    m.callbackRegistered := true;

    // a failure of net_config_init_app is only logged before it is returned
    return netConfigRet;
  }
}
