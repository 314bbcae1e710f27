/** Identities of the periodic callbacks the firmware registers: the
    function pointers `led_periodic_callback`, `firefly_periodic_callback`
    and `main_timeout_callback`, compared only for equality. */
module Tasks {

  datatype TaskId = LedPeriodicCallback | FireflyPeriodicCallback | MainTimeoutCallback
}
